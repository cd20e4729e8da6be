/** Under which names the values of an endpoint's parameters reach its handler. */
module EndpointAnswers {
  import opened Prelude
  import opened OrderedDicts
  import opened EndpointArgs

  // ----- what the resolvers hand over -----

  /** Where a value was read: by a whole resolver, or as one field of a model that is spread out. */
  datatype Source = Whole(resolver: Resolver) | Part(resolver: Resolver, index: nat)

  datatype Answer = Answer(name: string, source: Source)

  predicate Spreads(r: Resolver) {
    r.field.Some? && r.field.value.split.Spread?
  }

  /** The values that running one resolver gives, under the names they go by. */
  function AnswersOf(names: Labels, r: Resolver): (answers: seq<Answer>)
    ensures forall a :: a in answers ==> a.source.resolver == r
  {
    if Spreads(r) then
      var fields := r.field.value.split.fields;
      seq(|fields|, i requires 0 <= i < |fields| => Answer(fields[i], Part(r, i)))
    else [Answer(RunName(names, r), Whole(r))]
  }

  function AllAnswers(names: Labels, rs: seq<Resolver>): seq<Answer> {
    if rs == [] then [] else AllAnswers(names, rs[..|rs| - 1]) + AnswersOf(names, rs[|rs| - 1])
  }

  /** One model for the whole body hands over its fields under their keys. */
  function KeyedAnswers(fields: Fields): (answers: seq<Answer>)
    ensures |answers| == |fields|
    ensures forall i :: 0 <= i < |fields| ==> answers[i] == Answer(fields[i].key, Whole(fields[i].value))
  {
    seq(|fields|, i requires 0 <= i < |fields| => Answer(fields[i].key, Whole(fields[i].value)))
  }

  /** Read as JSON, several bodies are one model; read as a form, each is resolved by itself. */
  predicate ReadAsOne(b: Body) {
    b.Grouped? && (b.read.BodyInfo? || b.read.WsBodyInfo?)
  }

  function BodyAnswers(names: Labels, b: Body): seq<Answer> {
    match b
    case NoBody => []
    case Single(r) => AnswersOf(names, r)
    case Grouped(rs, fields, read) => if ReadAsOne(b) then KeyedAnswers(fields) else AllAnswers(names, rs)
  }

  /**
   What the handler is given, in the order in which it is gathered; a websocket's bodies are each resolved by
   themselves.
   */
  ghost function Handed(websocket: bool, names: Labels, rs: seq<Resolver>): seq<Answer> {
    (if websocket then AllAnswers(names, Bodies(rs)) else BodyAnswers(names, BodyOf(Bodies(rs)))) +
    AllAnswers(names, RouteModels(rs))
  }

  /** What it should be given: each parameter's value under the parameter's name. */
  function Wanted(rs: seq<Resolver>): (answers: seq<Answer>)
    ensures |answers| == |rs| && forall i :: 0 <= i < |rs| ==> answers[i] == Answer(rs[i].name, Whole(rs[i]))
  {
    seq(|rs|, i requires 0 <= i < |rs| => Answer(rs[i].name, Whole(rs[i])))
  }

  // ----- the condition -----

  ghost predicate AsOneModel(websocket: bool, rs: seq<Resolver>) {
    !websocket && ReadAsOne(BodyOf(Bodies(rs)))
  }

  /** Every field has its parameter's name as its key, that is, no other alias, and no two have one name. */
  ghost predicate KeysAreNames(bodies: seq<Resolver>)
    requires HaveFields(bodies)
  {
    && (forall i :: 0 <= i < |bodies| ==> bodies[i].field.value.key == bodies[i].name)
    && forall i, j :: 0 <= i < j < |bodies| ==> bodies[i].name != bodies[j].name
  }

  ghost predicate NoneSpreads(bodies: seq<Resolver>) {
    forall i :: 0 <= i < |bodies| ==> !Spreads(bodies[i])
  }

  /** The body hands each of its parameters over under its own name. */
  ghost predicate BodyKeepsNames(websocket: bool, rs: seq<Resolver>) {
    if AsOneModel(websocket, rs) then KeysAreNames(Bodies(rs)) else NoneSpreads(Bodies(rs))
  }

  // ----- for which parameters the resolvers stand -----

  /** The parameters that are not skipped. */
  function Kept(ps: seq<Param>): seq<Param> {
    if ps == [] then []
    else Kept(ps[..|ps| - 1]) + if IsSkipped(ps[|ps| - 1]) then [] else [ps[|ps| - 1]]
  }

  /** The system resolver object that a parameter has as its default. */
  function IdOf(p: Param): Option<int> {
    if DefaultOf(p).System? then Some(DefaultOf(p).id) else None
  }

  /** Only fields of the body are spread, and only fields have no object. */
  predicate IsFor(r: Resolver, p: Param) {
    && r.name == p.name && r.id == IdOf(p)
    && (r.id.Some? ==> r.field.None?) && (Spreads(r) ==> r.location == InBody && r.field.value.split.fields != [])
  }

  /** One resolver for each parameter, in order. */
  ghost predicate AreFor(rs: seq<Resolver>, ps: seq<Param>) {
    |rs| == |ps| && forall i :: 0 <= i < |rs| ==> IsFor(rs[i], ps[i])
  }

  /** Either skipped as it should be, or placed for the parameter. */
  predicate PlacedFor(placement: Placement, p: Param, skipped: bool) {
    if skipped then placement.Skip? else placement.Place? && IsFor(placement.resolver, p)
  }

  lemma ParamPlacedFor(p: Param, pathNames: set<string>, bodyClass: FieldClass)
    requires !PlaceParam(p, pathNames, bodyClass).Fail?
    ensures PlacedFor(PlaceParam(p, pathNames, bodyClass), p, IsSkipped(p))
  {
  }

  lemma ExtraPlacedFor(p: Param)
    requires !PlaceExtra(p).Fail?
    ensures PlacedFor(PlaceExtra(p), p, false)
  {
  }

  lemma {:induction false} SignatureIsPlaced(placements: seq<Placement>, ps: seq<Param>)
    requires |placements| == |ps| && forall i :: 0 <= i < |ps| ==> PlacedFor(placements[i], ps[i], IsSkipped(ps[i]))
    ensures AreFor(Resolvers(placements), Kept(ps))
  {
    if ps != [] {
      var n := |ps| - 1;
      SignatureIsPlaced(placements[..n], ps[..n]);
      assert PlacedFor(placements[n], ps[n], IsSkipped(ps[n]));
    }
  }

  lemma {:induction false} ExtrasArePlaced(
      placements: seq<Placement>, before: nat, extras: seq<Param>, kept: seq<Param>)
    requires |placements| == before + |extras| && AreFor(Resolvers(placements[..before]), kept)
    requires forall i :: 0 <= i < |extras| ==> PlacedFor(placements[before + i], extras[i], false)
    ensures AreFor(Resolvers(placements), kept + extras)
    decreases |extras|
  {
    if extras == [] {
      assert placements[..before] == placements && kept + extras == kept;
    } else {
      var n := |extras| - 1;
      var init := placements[..before + n];
      assert init[..before] == placements[..before];
      ExtrasArePlaced(init, before, extras[..n], kept);
      assert PlacedFor(placements[before + n], extras[n], false);
      assert placements[..|placements| - 1] == init;
      assert kept + extras == (kept + extras[..n]) + [extras[n]];
    }
  }

  lemma AllPlacedFor(
      all: seq<Placement>, ps: seq<Param>, extras: seq<Param>, pathNames: set<string>, bodyClass: FieldClass)
    requires Classifies(all, ps, extras, pathNames, bodyClass) && NoneFails(all)
    ensures AreFor(Resolvers(all), Kept(ps) + extras)
  {
    forall i | 0 <= i < |ps|
      ensures PlacedFor(all[..|ps|][i], ps[i], IsSkipped(ps[i]))
    {
      ParamPlacedFor(ps[i], pathNames, bodyClass);
    }
    forall i | 0 <= i < |extras|
      ensures PlacedFor(all[|ps| + i], extras[i], false)
    {
      ExtraPlacedFor(extras[i]);
    }
    SignatureIsPlaced(all[..|ps|], ps);
    ExtrasArePlaced(all, |ps|, extras, Kept(ps));
  }

  // ----- the names of system resolver objects -----

  /** No system resolver object is the default of two parameters of different names. */
  ghost predicate Unshared(ps: seq<Param>) {
    forall i, j :: 0 <= i < |ps| && 0 <= j < |ps| && IdOf(ps[i]).Some? && IdOf(ps[i]) == IdOf(ps[j]) ==>
      ps[i].name == ps[j].name
  }

  ghost predicate IsLastOf(rs: seq<Resolver>, k: nat) {
    k < |rs| && rs[k].id.Some? && forall m :: k < m < |rs| ==> rs[m].id != rs[k].id
  }

  /** An object goes by the name of the last parameter it was placed for. */
  lemma {:induction false} LastNameStays(start: Labels, rs: seq<Resolver>, i: nat) returns (k: nat)
    requires i < |rs| && rs[i].id.Some?
    ensures i <= k && IsLastOf(rs, k) && rs[k].id == rs[i].id
    ensures RunName(NamedByAll(start, rs), rs[i]) == rs[k].name
  {
    var n := |rs| - 1;
    if rs[n].id == rs[i].id {
      k := n;
    } else {
      k := LastNameStays(start, rs[..n], i);
    }
  }

  /** Every resolver goes by the name it was placed under. */
  ghost predicate NamesSurvive(names: Labels, rs: seq<Resolver>) {
    forall i :: 0 <= i < |rs| ==> RunName(names, rs[i]) == rs[i].name
  }

  /** Every resolver goes by the name of the parameter it was placed for exactly when no object is shared. */
  lemma NamesSurviveIffUnshared(start: Labels, rs: seq<Resolver>, ps: seq<Param>)
    requires AreFor(rs, ps)
    ensures NamesSurvive(NamedByAll(start, rs), rs) <==> Unshared(ps)
  {
    var names := NamedByAll(start, rs);
    if Unshared(ps) {
      forall i | 0 <= i < |rs|
        ensures RunName(names, rs[i]) == rs[i].name
      {
        assert IsFor(rs[i], ps[i]);
        if rs[i].id.Some? {
          var k := LastNameStays(start, rs, i);
          assert IsFor(rs[k], ps[k]);
        }
      }
    }
    if NamesSurvive(names, rs) {
      forall i, j | 0 <= i < |ps| && 0 <= j < |ps| && IdOf(ps[i]).Some? && IdOf(ps[i]) == IdOf(ps[j])
        ensures ps[i].name == ps[j].name
      {
        assert IsFor(rs[i], ps[i]) && IsFor(rs[j], ps[j]);
        var k := LastNameStays(start, rs, i);
        var l := LastNameStays(start, rs, j);
        assert k == l;
      }
    }
  }

  // ----- when all is well -----

  lemma {:induction false} WantedCount(rs: seq<Resolver>, a: Answer)
    ensures multiset(Wanted(rs))[a] ==
            if a.source.Whole? && a.name == a.source.resolver.name then multiset(rs)[a.source.resolver] else 0
  {
    if rs != [] {
      var n := |rs| - 1;
      WantedCount(rs[..n], a);
      assert rs == rs[..n] + [rs[n]];
      assert Wanted(rs) == Wanted(rs[..n]) + [Answer(rs[n].name, Whole(rs[n]))];
    }
  }

  /** The same resolvers in another order. */
  lemma WantedOfSame(a: seq<Resolver>, b: seq<Resolver>)
    requires multiset(a) == multiset(b)
    ensures multiset(Wanted(a)) == multiset(Wanted(b))
  {
    forall x
      ensures multiset(Wanted(a))[x] == multiset(Wanted(b))[x]
    {
      WantedCount(a, x);
      WantedCount(b, x);
    }
  }

  lemma {:induction false} AllAnswersAreWanted(names: Labels, rs: seq<Resolver>)
    requires NamesSurvive(names, rs) && NoneSpreads(rs)
    ensures AllAnswers(names, rs) == Wanted(rs)
  {
    if rs != [] {
      var n := |rs| - 1;
      AllAnswersAreWanted(names, rs[..n]);
      assert AnswersOf(names, rs[n]) == [Answer(rs[n].name, Whole(rs[n]))];
      assert Wanted(rs) == Wanted(rs[..n]) + [Answer(rs[n].name, Whole(rs[n]))];
    }
  }

  function Items(bodies: seq<Resolver>): (fields: Fields)
    ensures |fields| == |bodies| && forall i :: 0 <= i < |bodies| ==> fields[i] == Item(bodies[i].name, bodies[i])
  {
    seq(|bodies|, i requires 0 <= i < |bodies| => Item(bodies[i].name, bodies[i]))
  }

  lemma {:induction false} FieldsAreItems(bodies: seq<Resolver>)
    requires HaveFields(bodies) && KeysAreNames(bodies)
    ensures FieldsOf(bodies) == Items(bodies)
  {
    if bodies != [] {
      var n := |bodies| - 1;
      FieldsAreItems(bodies[..n]);
      assert bodies[n].field.value.key == bodies[n].name;
      OneMoreItem(bodies);
    }
  }

  lemma OneMoreItem(bodies: seq<Resolver>)
    requires HaveFields(bodies) && KeysAreNames(bodies) && bodies != []
    ensures var n := |bodies| - 1;
            Put(Items(bodies[..n]), bodies[n].name, bodies[n]) == Items(bodies)
  {
    var n := |bodies| - 1;
    var init := Items(bodies[..n]);
    forall i | 0 <= i < n
      ensures Keys(init)[i] != bodies[n].name
    {
      assert bodies[i].name != bodies[n].name;
    }
    PutFresh(init, bodies[n].name, bodies[n]);
  }

  lemma KeyedAnswersAreWanted(bodies: seq<Resolver>)
    requires HaveFields(bodies) && KeysAreNames(bodies)
    ensures KeyedAnswers(FieldsOf(bodies)) == Wanted(bodies)
  {
    FieldsAreItems(bodies);
  }

  /** The parts of what is handed over, whatever the body is. */
  lemma HandedParts(websocket: bool, names: Labels, rs: seq<Resolver>)
    ensures Handed(websocket, names, rs) ==
            (if AsOneModel(websocket, rs) then KeyedAnswers(FieldsOf(Bodies(rs))) else AllAnswers(names, Bodies(rs))) +
            AllAnswers(names, RouteModels(rs))
  {
    var b := BodyOf(Bodies(rs));
    if b.Single? {
      assert Bodies(rs) == [b.resolver];
      AllAnswersOfOne(names, b.resolver);
    }
  }

  lemma AllAnswersOfOne(names: Labels, r: Resolver)
    ensures AllAnswers(names, [r]) == AnswersOf(names, r)
  {
    assert AllAnswers(names, [r]) == AllAnswers(names, []) + AnswersOf(names, r);
  }

  lemma InRouteModels(rs: seq<Resolver>, r: Resolver)
    ensures r in RouteModels(rs) <==> r in rs && !r.location.Custom? && r.location != InBody
  {
    RouteModelsCount(rs, r);
    assert r in RouteModels(rs) <==> multiset(RouteModels(rs))[r] > 0;
    assert r in rs <==> multiset(rs)[r] > 0;
  }

  /** What holds of all resolvers holds of those of each group. */
  lemma GroupsKeepNames(names: Labels, rs: seq<Resolver>, ps: seq<Param>)
    requires AreFor(rs, ps) && NamesSurvive(names, rs)
    ensures NamesSurvive(names, Bodies(rs)) && NamesSurvive(names, RouteModels(rs)) && NoneSpreads(RouteModels(rs))
  {
    forall r | r in rs
      ensures RunName(names, r) == r.name && (Spreads(r) ==> r.location == InBody)
    {
      var i :| 0 <= i < |rs| && rs[i] == r;
      assert IsFor(rs[i], ps[i]);
    }
    forall i | 0 <= i < |Bodies(rs)|
      ensures RunName(names, Bodies(rs)[i]) == Bodies(rs)[i].name
    {
      InBodies(rs, Bodies(rs)[i]);
    }
    forall i | 0 <= i < |RouteModels(rs)|
      ensures RunName(names, RouteModels(rs)[i]) == RouteModels(rs)[i].name && !Spreads(RouteModels(rs)[i])
    {
      InRouteModels(rs, RouteModels(rs)[i]);
    }
  }

  lemma WantedJoins(a: seq<Resolver>, b: seq<Resolver>)
    ensures Wanted(a) + Wanted(b) == Wanted(a + b)
  {
  }

  lemma AllIsHanded(websocket: bool, names: Labels, rs: seq<Resolver>, ps: seq<Param>)
    requires AreFor(rs, ps) && NamesSurvive(names, rs) && AllKnown(rs) && BodyKeepsNames(websocket, rs)
    ensures multiset(Handed(websocket, names, rs)) == multiset(Wanted(rs))
  {
    GroupsKeepNames(names, rs, ps);
    HandedIsWanted(websocket, names, rs);
    EveryResolverIsRunOnce(rs);
    WantedOfSame(Bodies(rs) + RouteModels(rs), rs);
  }

  lemma HandedIsWanted(websocket: bool, names: Labels, rs: seq<Resolver>)
    requires NamesSurvive(names, Bodies(rs)) && NamesSurvive(names, RouteModels(rs)) && NoneSpreads(RouteModels(rs))
    requires BodyKeepsNames(websocket, rs)
    ensures Handed(websocket, names, rs) == Wanted(Bodies(rs) + RouteModels(rs))
  {
    HandedParts(websocket, names, rs);
    AllAnswersAreWanted(names, RouteModels(rs));
    if AsOneModel(websocket, rs) {
      KeyedAnswersAreWanted(Bodies(rs));
    } else {
      AllAnswersAreWanted(names, Bodies(rs));
    }
    WantedJoins(Bodies(rs), RouteModels(rs));
  }

  lemma EveryResolverIsRunOnce(rs: seq<Resolver>)
    requires AllKnown(rs)
    ensures multiset(Bodies(rs) + RouteModels(rs)) == multiset(rs)
  {
    AllRunOnce(rs, 1);
    RepeatedOnce(Bodies(rs));
    assert multiset(Bodies(rs) + RouteModels(rs)) == multiset(RouteModels(rs) + Bodies(rs));
  }

  // ----- what follows when every value arrives -----

  /** Every parameter's value is among those handed over, under its own name. */
  ghost predicate EachArrives(websocket: bool, names: Labels, rs: seq<Resolver>) {
    forall i :: 0 <= i < |rs| ==> Answer(rs[i].name, Whole(rs[i])) in Handed(websocket, names, rs)
  }

  lemma {:induction false} FromAllAnswers(names: Labels, rs: seq<Resolver>, a: Answer)
    requires a in AllAnswers(names, rs)
    ensures a.source.resolver in rs && a in AnswersOf(names, a.source.resolver)
  {
    var n := |rs| - 1;
    assert rs == rs[..n] + [rs[n]];
    if a !in AnswersOf(names, rs[n]) {
      FromAllAnswers(names, rs[..n], a);
    }
  }

  ghost predicate FieldsFrom(fields: Fields, bodies: seq<Resolver>) {
    forall i :: 0 <= i < |fields| ==>
      fields[i].value in bodies && fields[i].value.field.Some? && fields[i].key == fields[i].value.field.value.key
  }

  lemma {:induction false} PutFrom(fields: Fields, bodies: seq<Resolver>, r: Resolver)
    requires FieldsFrom(fields, bodies) && r in bodies && r.field.Some?
    ensures FieldsFrom(Put(fields, r.field.value.key, r), bodies)
  {
    if fields != [] && fields[0].key != r.field.value.key {
      PutFrom(fields[1..], bodies, r);
    }
  }

  lemma {:induction false} FieldsAreFrom(bodies: seq<Resolver>)
    requires HaveFields(bodies)
    ensures FieldsFrom(FieldsOf(bodies), bodies)
  {
    if bodies != [] {
      var n := |bodies| - 1;
      FieldsAreFrom(bodies[..n]);
      assert bodies == bodies[..n] + [bodies[n]];
      PutFrom(FieldsOf(bodies[..n]), bodies, bodies[n]);
    }
  }

  /** What arrives as a whole comes from a resolver that is run, under its key or the name it goes by. */
  lemma ArrivesFrom(websocket: bool, names: Labels, rs: seq<Resolver>, r: Resolver, name: string)
    requires Answer(name, Whole(r)) in Handed(websocket, names, rs)
    ensures r in rs && IsRun(r)
    ensures if r.location == InBody && AsOneModel(websocket, rs) then r.field.Some? && name == r.field.value.key
            else name == RunName(names, r) && !Spreads(r)
  {
    var a := Answer(name, Whole(r));
    HandedParts(websocket, names, rs);
    InBodies(rs, r);
    InRouteModels(rs, r);
    if a in AllAnswers(names, RouteModels(rs)) {
      FromAllAnswers(names, RouteModels(rs), a);
    } else if AsOneModel(websocket, rs) {
      FieldsAreFrom(Bodies(rs));
      var i :| 0 <= i < |FieldsOf(Bodies(rs))| && KeyedAnswers(FieldsOf(Bodies(rs)))[i] == a;
    } else {
      FromAllAnswers(names, Bodies(rs), a);
    }
  }

  lemma ArrivingNamesSurvive(websocket: bool, names: Labels, rs: seq<Resolver>, ps: seq<Param>)
    requires AreFor(rs, ps) && EachArrives(websocket, names, rs)
    ensures AllKnown(rs) && NamesSurvive(names, rs)
  {
    forall i | 0 <= i < |rs|
      ensures IsRun(rs[i]) && RunName(names, rs[i]) == rs[i].name
    {
      assert IsFor(rs[i], ps[i]);
      ArrivesFrom(websocket, names, rs, rs[i], rs[i].name);
    }
  }

  lemma ArrivingBodies(websocket: bool, names: Labels, rs: seq<Resolver>, k: nat)
    requires EachArrives(websocket, names, rs) && k < |Bodies(rs)|
    ensures var r := Bodies(rs)[k];
            if AsOneModel(websocket, rs) then r.field.value.key == r.name else !Spreads(r)
  {
    var r := Bodies(rs)[k];
    InBodies(rs, r);
    var i :| 0 <= i < |rs| && rs[i] == r;
    ArrivesFrom(websocket, names, rs, rs[i], rs[i].name);
  }

  // ----- no value twice -----

  lemma {:induction false} PutOncePerKey(fields: Fields, key: string, r: Resolver)
    requires Distinct(Keys(fields))
    ensures Distinct(Keys(Put(fields, key, r)))
  {
    PutKeys(fields, key, r);
  }

  lemma {:induction false} OneFieldPerKey(bodies: seq<Resolver>)
    requires HaveFields(bodies)
    ensures Distinct(Keys(FieldsOf(bodies)))
  {
    if bodies != [] {
      var n := |bodies| - 1;
      OneFieldPerKey(bodies[..n]);
      PutOncePerKey(FieldsOf(bodies[..n]), bodies[n].field.value.key, bodies[n]);
    }
  }

  lemma AtMostOnce<T>(s: seq<T>, x: T)
    requires Distinct(s)
    ensures multiset(s)[x] <= 1
    decreases |s|
  {
    if s != [] {
      assert s == [s[0]] + s[1..];
      AtMostOnce(s[1..], x);
      forall i | 0 <= i < |s[1..]|
        ensures s[1..][i] != s[0]
      {
        assert s[0] != s[i + 1];
      }
      assert x !in s[1..] ==> multiset(s[1..])[x] == 0;
    }
  }

  lemma AtLeastTwice<T>(s: seq<T>, i: nat, j: nat)
    requires i < j < |s| && s[i] == s[j]
    ensures multiset(s)[s[i]] >= 2
  {
    assert s == s[..j] + [s[j]] + s[j + 1..];
    assert s[..j][i] == s[i] && s[i] in multiset(s[..j]);
  }

  /** Read as one model, the body hands over nothing twice. */
  lemma BodyAnswersOnce(websocket: bool, names: Labels, rs: seq<Resolver>, a: Answer)
    requires AsOneModel(websocket, rs) && a.source.resolver.location == InBody
    ensures multiset(Handed(websocket, names, rs))[a] <= 1
  {
    HandedParts(websocket, names, rs);
    var fields := FieldsOf(Bodies(rs));
    OneFieldPerKey(Bodies(rs));
    assert forall i :: 0 <= i < |fields| ==> Keys(fields)[i] == KeyedAnswers(fields)[i].name;
    assert Distinct(KeyedAnswers(fields));
    AtMostOnce(KeyedAnswers(fields), a);
    if a in AllAnswers(names, RouteModels(rs)) {
      FromAllAnswers(names, RouteModels(rs), a);
      InRouteModels(rs, a.source.resolver);
      assert false;
    }
    assert multiset(AllAnswers(names, RouteModels(rs)))[a] == 0;
  }

  /** In a body read as one model, of two parameters with one name only one arrives. */
  lemma BodyNamesDiffer(websocket: bool, names: Labels, rs: seq<Resolver>, i: nat, j: nat)
    requires multiset(Handed(websocket, names, rs)) == multiset(Wanted(rs)) && AsOneModel(websocket, rs)
    requires i < j < |Bodies(rs)| && EachArrives(websocket, names, rs)
    ensures Bodies(rs)[i].name != Bodies(rs)[j].name
  {
    var r, q := Bodies(rs)[i], Bodies(rs)[j];
    if r.name == q.name {
      InBodies(rs, r);
      InBodies(rs, q);
      OneOfTheSameName(websocket, names, rs, r, q);
      AtLeastTwice(Bodies(rs), i, j);
      BodiesCount(rs, r);
      WantedCount(rs, Answer(r.name, Whole(r)));
      BodyAnswersOnce(websocket, names, rs, Answer(r.name, Whole(r)));
    }
  }

  lemma OneOfTheSameName(websocket: bool, names: Labels, rs: seq<Resolver>, r: Resolver, q: Resolver)
    requires AsOneModel(websocket, rs) && EachArrives(websocket, names, rs) && r.name == q.name
    requires r in rs && q in rs && r.location == InBody && q.location == InBody
    ensures r == q
  {
    var fields := FieldsOf(Bodies(rs));
    OneFieldPerKey(Bodies(rs));
    var k := FieldThatArrives(websocket, names, rs, r);
    var l := FieldThatArrives(websocket, names, rs, q);
    OneItemPerKey(fields, k, l);
  }

  lemma OneItemPerKey(fields: Fields, k: nat, l: nat)
    requires Distinct(Keys(fields)) && k < |fields| && l < |fields| && fields[k].key == fields[l].key
    ensures k == l
  {
    assert Keys(fields)[k] == Keys(fields)[l];
  }

  lemma FieldThatArrives(websocket: bool, names: Labels, rs: seq<Resolver>, r: Resolver) returns (k: nat)
    requires AsOneModel(websocket, rs) && EachArrives(websocket, names, rs) && r in rs && r.location == InBody
    ensures k < |FieldsOf(Bodies(rs))| && FieldsOf(Bodies(rs))[k] == Item(r.name, r)
  {
    HandedParts(websocket, names, rs);
    var i :| 0 <= i < |rs| && rs[i] == r;
    var a := Answer(rs[i].name, Whole(rs[i]));
    if a in AllAnswers(names, RouteModels(rs)) {
      FromAllAnswers(names, RouteModels(rs), a);
      InRouteModels(rs, r);
      assert false;
    }
    k :| 0 <= k < |FieldsOf(Bodies(rs))| && KeyedAnswers(FieldsOf(Bodies(rs)))[k] == a;
  }

  // ----- the main results -----

  /**
   The handler is handed every parameter's value once, under the parameter's own name, and nothing else
   exactly when
   - no system resolver names a location of its own,
   - none is the default of two parameters of different names,
   - in a body of several fields that is read as one model no field has an alias other than its name,
     and no two have one name, and
   - in any other body no form is spread out into its fields.
   */
  lemma EveryParameterIsRunOnceIff(
      websocket: bool, all: seq<Placement>, ps: seq<Param>, extras: seq<Param>, pathNames: set<string>, start: Labels)
    requires Classifies(all, ps, extras, pathNames, BodyClassOf(websocket)) && NoneFails(all)
    ensures var rs := Resolvers(all);
            multiset(Handed(websocket, NamedByAll(start, rs), rs)) == multiset(Wanted(rs)) <==>
            AllKnown(rs) && Unshared(Kept(ps) + extras) && BodyKeepsNames(websocket, rs)
    ensures AreFor(Resolvers(all), Kept(ps) + extras)
  {
    var rs, params := Resolvers(all), Kept(ps) + extras;
    var names := NamedByAll(start, rs);
    AllPlacedFor(all, ps, extras, pathNames, BodyClassOf(websocket));
    NamesSurviveIffUnshared(start, rs, params);
    if AllKnown(rs) && Unshared(params) && BodyKeepsNames(websocket, rs) {
      AllIsHanded(websocket, names, rs, params);
    }
    if multiset(Handed(websocket, names, rs)) == multiset(Wanted(rs)) {
      SameMeansEachArrives(websocket, names, rs);
      ArrivingNamesSurvive(websocket, names, rs, params);
      SameMeansBodyKeepsNames(websocket, names, rs);
    }
  }

  lemma SameMeansEachArrives(websocket: bool, names: Labels, rs: seq<Resolver>)
    requires multiset(Handed(websocket, names, rs)) == multiset(Wanted(rs))
    ensures EachArrives(websocket, names, rs)
  {
    forall i | 0 <= i < |rs|
      ensures Answer(rs[i].name, Whole(rs[i])) in Handed(websocket, names, rs)
    {
      assert Wanted(rs)[i] in multiset(Wanted(rs));
    }
  }

  lemma SameMeansBodyKeepsNames(websocket: bool, names: Labels, rs: seq<Resolver>)
    requires multiset(Handed(websocket, names, rs)) == multiset(Wanted(rs)) && EachArrives(websocket, names, rs)
    ensures BodyKeepsNames(websocket, rs)
  {
    forall k | 0 <= k < |Bodies(rs)|
      ensures var r := Bodies(rs)[k];
              if AsOneModel(websocket, rs) then r.field.value.key == r.name else !Spreads(r)
    {
      ArrivingBodies(websocket, names, rs, k);
    }
    if AsOneModel(websocket, rs) {
      forall i, j | 0 <= i < j < |Bodies(rs)|
        ensures Bodies(rs)[i].name != Bodies(rs)[j].name
      {
        BodyNamesDiffer(websocket, names, rs, i, j);
      }
    }
  }

  // ----- the handler's keyword arguments -----

  /** The answers merged into one dictionary, later ones over earlier ones. */
  function Kwargs(answers: seq<Answer>): (kwargs: map<string, Source>)
    ensures forall a :: a in answers ==> a.name in kwargs
    ensures forall name :: name in kwargs ==> Answer(name, kwargs[name]) in answers
  {
    if answers == [] then map[]
    else
      var last := answers[|answers| - 1];
      assert answers == answers[..|answers| - 1] + [last];
      Kwargs(answers[..|answers| - 1])[last.name := last.source]
  }

  ghost predicate DistinctNames(ps: seq<Param>) {
    forall i, j :: 0 <= i < j < |ps| ==> ps[i].name != ps[j].name
  }

  /**
   With parameters of different names, as in any signature, the handler is called with exactly each
   parameter's own value under the same condition.
   */
  lemma HandlerGetsItsParametersIff(
      websocket: bool, all: seq<Placement>, ps: seq<Param>, extras: seq<Param>, pathNames: set<string>, start: Labels)
    requires Classifies(all, ps, extras, pathNames, BodyClassOf(websocket)) && NoneFails(all)
    requires DistinctNames(Kept(ps) + extras)
    ensures var rs := Resolvers(all);
            Kwargs(Handed(websocket, NamedByAll(start, rs), rs)) == Kwargs(Wanted(rs)) <==>
            AllKnown(rs) && Unshared(Kept(ps) + extras) && BodyKeepsNames(websocket, rs)
  {
    var rs, params := Resolvers(all), Kept(ps) + extras;
    var names := NamedByAll(start, rs);
    EveryParameterIsRunOnceIff(websocket, all, ps, extras, pathNames, start);
    NamesSurviveIffUnshared(start, rs, params);
    ResolversDiffer(rs, params);
    if AllKnown(rs) && Unshared(params) && BodyKeepsNames(websocket, rs) {
      SameKwargs(Handed(websocket, names, rs), rs);
    }
    if Kwargs(Handed(websocket, names, rs)) == Kwargs(Wanted(rs)) {
      SameKwargsMeansEachArrives(websocket, names, rs);
      ArrivingNamesSurvive(websocket, names, rs, params);
      DistinctBodyKeepsNames(websocket, names, rs);
    }
  }

  ghost predicate DistinctlyNamed(rs: seq<Resolver>) {
    forall i, j :: 0 <= i < j < |rs| ==> rs[i].name != rs[j].name
  }

  lemma ResolversDiffer(rs: seq<Resolver>, ps: seq<Param>)
    requires AreFor(rs, ps) && DistinctNames(ps)
    ensures DistinctlyNamed(rs)
  {
    forall i, j | 0 <= i < j < |rs|
      ensures rs[i].name != rs[j].name
    {
      assert IsFor(rs[i], ps[i]) && IsFor(rs[j], ps[j]);
    }
  }

  lemma WantedIsAFunction(rs: seq<Resolver>, a: Answer, b: Answer)
    requires DistinctlyNamed(rs) && a in Wanted(rs) && b in Wanted(rs) && a.name == b.name
    ensures a == b
  {
    var i :| 0 <= i < |rs| && Wanted(rs)[i] == a;
    var j :| 0 <= j < |rs| && Wanted(rs)[j] == b;
    assert i == j;
  }

  lemma SameKwargs(answers: seq<Answer>, rs: seq<Resolver>)
    requires DistinctlyNamed(rs) && multiset(answers) == multiset(Wanted(rs))
    ensures Kwargs(answers) == Kwargs(Wanted(rs))
  {
    forall a
      ensures a in answers <==> a in Wanted(rs)
    {
      SameMembers(answers, Wanted(rs), a);
    }
    forall name
      ensures name in Kwargs(answers) <==> name in Kwargs(Wanted(rs))
      ensures name in Kwargs(answers) ==> Kwargs(answers)[name] == Kwargs(Wanted(rs))[name]
    {
      SameKwarg(answers, rs, Kwargs(answers), Kwargs(Wanted(rs)), name);
    }
  }

  lemma SameMembers<T>(a: seq<T>, b: seq<T>, x: T)
    requires multiset(a) == multiset(b)
    ensures x in a <==> x in b
  {
    assert x in a <==> x in multiset(a);
    assert x in b <==> x in multiset(b);
  }

  ghost predicate MergedFrom(answers: seq<Answer>, kwargs: map<string, Source>) {
    && (forall a :: a in answers ==> a.name in kwargs)
    && (forall name :: name in kwargs ==> Answer(name, kwargs[name]) in answers)
  }

  lemma SameKwarg(answers: seq<Answer>, rs: seq<Resolver>, got: map<string, Source>, wanted: map<string, Source>,
      name: string)
    requires DistinctlyNamed(rs) && forall a :: a in answers <==> a in Wanted(rs)
    requires MergedFrom(answers, got) && MergedFrom(Wanted(rs), wanted)
    ensures name in got <==> name in wanted
    ensures name in got ==> got[name] == wanted[name]
  {
    if name in wanted {
      var b := Answer(name, wanted[name]);
      assert b in answers && b.name in got;
    }
    if name in got {
      var a := Answer(name, got[name]);
      assert a in Wanted(rs) && a.name in wanted;
      WantedIsAFunction(rs, a, Answer(name, wanted[name]));
    }
  }

  lemma SameKwargsMeansEachArrives(websocket: bool, names: Labels, rs: seq<Resolver>)
    requires DistinctlyNamed(rs) && Kwargs(Handed(websocket, names, rs)) == Kwargs(Wanted(rs))
    ensures EachArrives(websocket, names, rs)
  {
    forall i | 0 <= i < |rs|
      ensures Answer(rs[i].name, Whole(rs[i])) in Handed(websocket, names, rs)
    {
      var wanted := Kwargs(Wanted(rs));
      assert Wanted(rs)[i] in Wanted(rs);
      WantedIsAFunction(rs, Wanted(rs)[i], Answer(rs[i].name, wanted[rs[i].name]));
    }
  }

  lemma {:induction false} BodiesDiffer(rs: seq<Resolver>)
    requires DistinctlyNamed(rs)
    ensures DistinctlyNamed(Bodies(rs))
  {
    if rs != [] {
      var n := |rs| - 1;
      BodiesDiffer(rs[..n]);
      forall i | 0 <= i < |Bodies(rs[..n])|
        ensures Bodies(rs[..n])[i].name != rs[n].name
      {
        InBodies(rs[..n], Bodies(rs[..n])[i]);
      }
    }
  }

  lemma DistinctBodyKeepsNames(websocket: bool, names: Labels, rs: seq<Resolver>)
    requires DistinctlyNamed(rs) && EachArrives(websocket, names, rs)
    ensures BodyKeepsNames(websocket, rs)
  {
    BodiesDiffer(rs);
    forall k | 0 <= k < |Bodies(rs)|
      ensures var r := Bodies(rs)[k];
              if AsOneModel(websocket, rs) then r.field.value.key == r.name else !Spreads(r)
    {
      ArrivingBodies(websocket, names, rs, k);
    }
  }

  // ----- signatures that lose a name -----

  lemma OneMorePlaced(before: seq<Placement>, r: Resolver)
    ensures Resolvers(before + [Place(r)]) == Resolvers(before) + [r]
  {
    ResolversSnoc(before, Place(r));
  }

  lemma ResolversOfOne(r: Resolver)
    ensures Resolvers([Place(r)]) == [r]
  {
    OneMorePlaced([], r);
    assert [] + [Place(r)] == [Place(r)];
  }

  lemma ResolversOfTwo(r: Resolver, t: Resolver)
    ensures Resolvers([Place(r), Place(t)]) == [r, t]
  {
    ResolversOfOne(r);
    OneMorePlaced([Place(r)], t);
    assert [Place(r)] + [Place(t)] == [Place(r), Place(t)];
  }

  lemma OneIsPlaced(p: Param, r: Resolver)
    requires PlaceParam(p, {}, BodyInfo(false)) == Place(r)
    ensures Resolvers(Placements([p], [], {}, BodyInfo(false))) == [r]
  {
    var all := Placements([p], [], {}, BodyInfo(false));
    assert all == [Place(r)];
    ResolversOfOne(r);
  }

  lemma TwoArePlaced(p: Param, q: Param, r: Resolver, t: Resolver)
    requires PlaceParam(p, {}, BodyInfo(false)) == Place(r) && PlaceParam(q, {}, BodyInfo(false)) == Place(t)
    ensures Resolvers(Placements([p, q], [], {}, BodyInfo(false))) == [r, t]
  {
    var all := Placements([p, q], [], {}, BodyInfo(false));
    assert all == [Place(r), Place(t)];
    ResolversOfTwo(r, t);
  }

  lemma {:induction false} AllInTheirGroup(rs: seq<Resolver>, here: Location)
    requires forall i :: 0 <= i < |rs| ==> rs[i].location == here
    ensures Group(rs, here) == rs
  {
    if rs != [] {
      var init, last := rs[..|rs| - 1], rs[|rs| - 1];
      AllInTheirGroup(init, here);
      assert init + [last] == rs;
      GroupSnoc(init, last, here);
    }
  }

  lemma {:induction false} NoneInOtherGroup(rs: seq<Resolver>, here: Location, location: Location)
    requires location != here && forall i :: 0 <= i < |rs| ==> rs[i].location == here
    ensures Group(rs, location) == []
  {
    if rs != [] {
      NoneInOtherGroup(rs[..|rs| - 1], here, location);
    }
  }

  lemma AllInOneGroup(rs: seq<Resolver>, here: Location, location: Location)
    requires forall i :: 0 <= i < |rs| ==> rs[i].location == here
    ensures Group(rs, location) == if location == here then rs else []
  {
    if location == here {
      AllInTheirGroup(rs, here);
    } else {
      NoneInOtherGroup(rs, here, location);
    }
  }

  lemma OnlyRouteModels(rs: seq<Resolver>, here: Location)
    requires forall i :: 0 <= i < |rs| ==> rs[i].location == here
    ensures here == InSystem ==> RouteModels(rs) == rs
    ensures here == InBody ==> RouteModels(rs) == []
  {
    AllInOneGroup(rs, here, InHeader);
    AllInOneGroup(rs, here, InPath);
    AllInOneGroup(rs, here, InQuery);
    AllInOneGroup(rs, here, InCookie);
    AllInOneGroup(rs, here, InSystem);
  }

  /** When there is nothing but the body, what it answers is all that is handed over. */
  lemma OnlyBodies(names: Labels, rs: seq<Resolver>)
    requires HaveFields(rs) && forall i :: 0 <= i < |rs| ==> rs[i].location == InBody
    ensures Bodies(rs) == rs && Handed(false, names, rs) == BodyAnswers(names, BodyOf(rs))
  {
    AllInOneGroup(rs, InBody, InBody);
    BodiesAreTheGroup(rs);
    OnlyRouteModels(rs, InBody);
  }

  /** A parameter of the body with a field description. */
  function BodyParam(name: string, embed: bool, alias: string, shape: Shape): Param {
    Param(name, Ordinary, Field(BodyInfo(embed), Some(alias), None), None, false, false, shape, None)
  }

  function BodyResolver(name: string, embed: bool, alias: string): Resolver
    requires alias != ""
  {
    Resolver(name, InBody, Some(ModelField(BodyInfo(embed), alias, "application/json", AsOne)), None)
  }

  lemma OneField(r: Resolver)
    requires r.field.Some?
    ensures FieldsOf([r]) == [Item(r.field.value.key, r)]
  {
    assert [r][..0] == [];
  }

  /** The second of two fields with one key takes the place of the first. */
  lemma TwoFieldsOneKey(r: Resolver, t: Resolver)
    requires r.field.Some? && t.field.Some? && r.field.value.key == t.field.value.key
    ensures FieldsOf([r, t]) == [Item(t.field.value.key, t)]
  {
    OneField(r);
    assert [r, t][..1] == [r];
    assert [Item(r.field.value.key, r)][1..] == [];
  }

  lemma ReadAsBody(bodies: seq<Resolver>)
    requires HaveFields(bodies) && bodies != []
    requires forall i :: 0 <= i < |bodies| ==> bodies[i].field.value.info.BodyInfo?
    ensures ReadAs(bodies).BodyInfo?
  {
    var k := LastOfGreatestDecides(bodies);
  }

  lemma OneKeyed(r: Resolver)
    requires r.field.Some?
    ensures KeyedAnswers([Item(r.field.value.key, r)]) == [Answer(r.field.value.key, Whole(r))]
  {
  }

  lemma EmbeddedAnswers(names: Labels, r: Resolver)
    requires r.field.Some? && r.field.value.info == BodyInfo(true)
    ensures BodyAnswers(names, BodyOf([r])) == [Answer(r.field.value.key, Whole(r))]
  {
    OneField(r);
    ReadAsBody([r]);
    OneKeyed(r);
  }

  lemma EqualKeysAnswer(names: Labels, r: Resolver, t: Resolver)
    requires r.field.Some? && t.field.Some? && r.field.value.key == t.field.value.key
    requires r.field.value.info.BodyInfo? && t.field.value.info.BodyInfo?
    ensures BodyAnswers(names, BodyOf([r, t])) == [Answer(t.field.value.key, Whole(t))]
  {
    TwoFieldsOneKey(r, t);
    ReadAsBody([r, t]);
    OneKeyed(t);
  }

  /**
   An embedded body with an alias, as in `a = Body(embed=True, alias="b")`, reaches the handler under the
   alias alone.
   */
  lemma EmbeddedAliasReplacesTheName(names: Labels, name: string, alias: string, shape: Shape)
    requires alias != ""
    ensures var rs := Resolvers(Placements([BodyParam(name, true, alias, shape)], [], {}, BodyInfo(false)));
            Handed(false, names, rs) == [Answer(alias, Whole(BodyResolver(name, true, alias)))]
  {
    var r := BodyResolver(name, true, alias);
    OneIsPlaced(BodyParam(name, true, alias, shape), r);
    OnlyBodies(names, [r]);
    EmbeddedAnswers(names, r);
  }

  /** Of two bodies with one alias only the second reaches the handler, and under the alias. */
  lemma EqualAliasesLoseOne(names: Labels, first: string, second: string, alias: string, shape: Shape)
    requires alias != ""
    ensures var params := [BodyParam(first, false, alias, shape), BodyParam(second, false, alias, shape)];
            var rs := Resolvers(Placements(params, [], {}, BodyInfo(false)));
            Handed(false, names, rs) == [Answer(alias, Whole(BodyResolver(second, false, alias)))]
  {
    var r, t := BodyResolver(first, false, alias), BodyResolver(second, false, alias);
    TwoArePlaced(BodyParam(first, false, alias, shape), BodyParam(second, false, alias, shape), r, t);
    OnlyBodies(names, [r, t]);
    EqualKeysAnswer(names, r, t);
  }

  /** Several bodies read as JSON are handed over as the fields of one model, and read as a form each by itself. */
  lemma ReadingDecidesTheAnswers(names: Labels, rs: seq<Resolver>, fields: Fields, read: FieldClass)
    ensures read.BodyInfo? || read.WsBodyInfo? ==> BodyAnswers(names, Grouped(rs, fields, read)) == KeyedAnswers(fields)
    ensures read.FormInfo? || read.FileInfo? ==> BodyAnswers(names, Grouped(rs, fields, read)) == AllAnswers(names, rs)
  {
  }

  /** A form declared inside an annotation, `form: Form[Model]`. */
  function AnnotatedForm(name: string, fields: seq<string>): Param {
    Param(name, Ordinary, Empty, Some(Described(FormInfo)), false, false, Model(true, fields), None)
  }

  function FormResolver(name: string, fields: seq<string>): Resolver {
    Resolver(name, InBody, Some(ModelField(FormInfo, name, "application/form-data", Spread(fields))), None)
  }

  lemma AnnotatedFormIsPlaced(name: string, fields: seq<string>)
    requires fields != []
    ensures PlaceParam(AnnotatedForm(name, fields), {}, BodyInfo(false)) == Place(FormResolver(name, fields))
  {
    var p := AnnotatedForm(name, fields);
    assert DefaultOf(p) == Described(FormInfo) && SplitOf(p, FormInfo) == Spread(fields);
  }

  /** Such a form reaches the handler as its model's fields, and not as the parameter. */
  lemma AnnotatedFormIsSpreadOut(names: Labels, name: string, fields: seq<string>)
    requires fields != []
    ensures var rs := Resolvers(Placements([AnnotatedForm(name, fields)], [], {}, BodyInfo(false)));
            var handed := Handed(false, names, rs);
            && |handed| == |fields|
            && forall i :: 0 <= i < |fields| ==> handed[i] == Answer(fields[i], Part(FormResolver(name, fields), i))
  {
    AnnotatedFormIsPlaced(name, fields);
    OneIsPlaced(AnnotatedForm(name, fields), FormResolver(name, fields));
    OneFormAnswers(names, FormResolver(name, fields), fields);
  }

  lemma OneFormAnswers(names: Labels, r: Resolver, fields: seq<string>)
    requires r.location == InBody && r.field.Some? && r.field.value.info == FormInfo &&
             r.field.value.split == Spread(fields)
    ensures Handed(false, names, [r]) == AnswersOf(names, r)
  {
    OnlyBodies(names, [r]);
    assert BodyOf([r]) == Single(r);
  }

  /** A parameter whose default is one and the same system resolver. */
  function UserParam(name: string): Param {
    Param(name, Ordinary, System(0, InSystem), None, false, true, OtherShape, None)
  }

  function UserResolver(name: string): Resolver {
    Resolver(name, InSystem, None, Some(0))
  }

  /** One resolver object as the default of two parameters is run twice under the second name, never under the first. */
  lemma SharedResolverRunsUnderOneName(start: Labels)
    ensures var rs := Resolvers(Placements([UserParam("a"), UserParam("b")], [], {}, BodyInfo(false)));
            Handed(false, NamedByAll(start, rs), rs) ==
            [Answer("b", Whole(UserResolver("a"))), Answer("b", Whole(UserResolver("b")))]
  {
    var a, b := UserResolver("a"), UserResolver("b");
    TwoArePlaced(UserParam("a"), UserParam("b"), a, b);
    TwoAreNamed(start, a, b);
    OnlySystem(NamedByAll(start, [a, b]), a, b);
  }

  lemma TwoAreNamed(start: Labels, a: Resolver, b: Resolver)
    requires a.id == Some(0) && b.id == Some(0)
    ensures RunName(NamedByAll(start, [a, b]), a) == b.name && RunName(NamedByAll(start, [a, b]), b) == b.name
  {
    NamedSnoc(start, [], a);
    NamedSnoc(start, [] + [a], b);
    assert [] + [a] + [b] == [a, b];
  }

  lemma OnlySystem(names: Labels, a: Resolver, b: Resolver)
    requires a.location == InSystem && b.location == InSystem && !Spreads(a) && !Spreads(b)
    ensures Handed(false, names, [a, b]) == [Answer(RunName(names, a), Whole(a)), Answer(RunName(names, b), Whole(b))]
  {
    OnlySystemAnswers(names, [a, b]);
    AllAnswersOfTwo(names, a, b);
  }

  lemma OnlySystemAnswers(names: Labels, rs: seq<Resolver>)
    requires forall i :: 0 <= i < |rs| ==> rs[i].location == InSystem
    ensures Handed(false, names, rs) == AllAnswers(names, rs)
  {
    AllInOneGroup(rs, InSystem, InBody);
    NoBodies(rs);
    OnlyRouteModels(rs, InSystem);
    NothingFromTheBody(names, rs);
  }

  lemma NothingFromTheBody(names: Labels, rs: seq<Resolver>)
    requires Bodies(rs) == []
    ensures Handed(false, names, rs) == AllAnswers(names, RouteModels(rs))
  {
    assert BodyOf(Bodies(rs)) == NoBody && BodyAnswers(names, NoBody) == [];
    var answers := AllAnswers(names, RouteModels(rs));
    assert [] + answers == answers;
  }

  lemma AllAnswersOfTwo(names: Labels, a: Resolver, b: Resolver)
    ensures AllAnswers(names, [a, b]) == AnswersOf(names, a) + AnswersOf(names, b)
  {
    assert [a, b][..1] == [a];
    AllAnswersOfOne(names, a);
  }

  lemma NoBodies(rs: seq<Resolver>)
    requires Group(rs, InBody) == []
    ensures Bodies(rs) == []
  {
    BodiesOfGroup(rs);
    assert Bodies([]) == [];
  }
}
