/** How an endpoint's parameters are sorted into groups of resolvers, and how the groups are run. */
module EndpointArgs {
  import opened Prelude
  import opened OrderedDicts
  import RouteSorting

  // ----- parameters -----

  datatype FieldClass =
    | QueryInfo
    | HeaderInfo
    | PathInfo
    | CookieInfo
    | BodyInfo(embed: bool)
    | WsBodyInfo(embed: bool)
    | FormInfo
    | FileInfo

  /** Where a resolver's values come from; a system resolver may name a place of its own. */
  datatype Location = InHeader | InPath | InQuery | InCookie | InBody | InSystem | Custom(name: string)

  function LocationOf(f: FieldClass): Location {
    match f
    case QueryInfo => InQuery
    case HeaderInfo => InHeader
    case PathInfo => InPath
    case CookieInfo => InCookie
    case BodyInfo(e) => InBody
    case WsBodyInfo(e) => InBody
    case FormInfo => InBody
    case FileInfo => InBody
  }

  datatype Kind = Ordinary | VarPositional | VarKeyword

  /** A parameter's default: none, a value, a field description, or a system resolver, an object with a location. */
  datatype Default =
    | Empty
    | Plain
    | Field(info: FieldClass, alias: Option<string>, mediaType: Option<string>)
    | System(id: int, location: Location)

  /** What kind of value the annotation asks for; a model may have fields that cannot be split up. */
  datatype Shape = Scalar | ScalarSequence | Model(splits: bool, fields: seq<string>) | OtherShape

  datatype Param = Param(
    name: string,
    kind: Kind,
    raw: Default,
    annotated: Option<Default>,
    tooManyAnnotations: bool,
    annotationEmpty: bool,
    shape: Shape,
    resolverForType: Option<Location>)

  /**
   What a parameter is resolved with.  A system resolver that was written as a default is an object of the
   application's, which goes by the name in its own field; every other resolver is new and keeps its name.
   */
  datatype Resolver = Resolver(name: string, location: Location, field: Option<ModelField>, id: Option<int>)

  /** The field that is validated: its class, its key in a body of several fields, and what becomes of a split model. */
  datatype ModelField = ModelField(info: FieldClass, key: string, mediaType: string, split: Split)

  /** A model split into its fields is put together again, or its fields are handed on one by one. */
  datatype Split = AsOne | Joined | Spread(fields: seq<string>)

  datatype Placement = Skip | Place(resolver: Resolver) | Fail

  function DefaultOf(p: Param): Default {
    p.annotated.GetOr(p.raw)
  }

  predicate IsSkipped(p: Param) {
    p.kind != Ordinary || (p.name == "self" && p.annotationEmpty)
  }

  predicate IsScalarField(shape: Shape, info: FieldClass) {
    shape == Scalar && !info.BodyInfo? && !info.WsBodyInfo?
  }

  /** Missing and empty texts are replaced. */
  function TextOr(text: Option<string>, otherwise: string): string {
    if text.None? || text.value == "" then otherwise else text.value
  }

  function MediaTypeOf(info: FieldClass, given: Option<string>): string {
    TextOr(given, if info.FormInfo? then "application/form-data"
                  else if info.FileInfo? then "multipart/form-data" else "application/json")
  }

  function PlaceField(name: string, default: Default, split: Split): Placement
    requires default.Field?
  {
    var mediaType := MediaTypeOf(default.info, default.mediaType);
    var field := ModelField(default.info, TextOr(default.alias, name), mediaType, split);
    Place(Resolver(name, LocationOf(default.info), Some(field), None))
  }

  /** The description of a parameter that has none. */
  function Described(info: FieldClass): Default {
    Field(info, None, None)
  }

  function PlaceSystem(name: string, default: Default): Placement
    requires default.System?
  {
    Place(Resolver(name, default.location, None, Some(default.id)))
  }

  // ----- classification, as the code branches -----

  function PlacePath(p: Param): Placement {
    var keepsDefault := p.raw.Field? && p.raw.info.PathInfo? && DefaultOf(p).Field?;
    var default := if keepsDefault then DefaultOf(p) else Described(PathInfo);
    if IsScalarField(p.shape, default.info) then PlaceField(p.name, default, AsOne) else Fail
  }

  /**
   What becomes of a model that is split.  A form is put together again only when the signature's own
   default, outside any annotation, says that it is a form.
   */
  function SplitOf(p: Param, info: FieldClass): Split
    requires p.shape.Model?
  {
    if p.shape.fields == [] then AsOne
    else if info.FormInfo? && !(p.raw.Field? && p.raw.info.FormInfo?) then Spread(p.shape.fields)
    else Joined
  }

  function PlaceOther(p: Param, bodyClass: FieldClass): Placement {
    var default := DefaultOf(p);
    if !default.Field? && p.raw.Field? then Fail
    else
      var described :=
        if default.Field? then default else Described(if p.shape == Scalar then QueryInfo else bodyClass);
      var info := described.info;
      if info.BodyInfo? || info.WsBodyInfo? || info.FileInfo? || p.shape.Scalar? || p.shape.ScalarSequence? then
        PlaceField(p.name, described, AsOne)
      else if p.shape.Model? && p.shape.splits then PlaceField(p.name, described, SplitOf(p, info))
      else Fail
  }

  function PlaceParam(p: Param, pathNames: set<string>, bodyClass: FieldClass): Placement {
    if p.tooManyAnnotations then Fail
    else if IsSkipped(p) then Skip
    else if p.resolverForType.Some? && DefaultOf(p).Empty? then
      Place(Resolver(p.name, p.resolverForType.value, None, None))
    else if DefaultOf(p).System? then PlaceSystem(p.name, DefaultOf(p))
    else if p.name in pathNames then PlacePath(p)
    else PlaceOther(p, bodyClass)
  }

  /** Extra arguments of decorators: no skipping, no path names and no splitting. */
  function PlaceExtra(p: Param): Placement {
    if p.tooManyAnnotations then Fail
    else if DefaultOf(p).System? then PlaceSystem(p.name, DefaultOf(p))
    else
      var undeclared := if p.shape == Scalar then QueryInfo else BodyInfo(false);
      PlaceField(p.name, if p.raw.Field? then p.raw else Described(undeclared), AsOne)
  }

  /** The placement of every parameter, and then of every extra argument. */
  ghost predicate Classifies(
      all: seq<Placement>, ps: seq<Param>, extras: seq<Param>, pathNames: set<string>, bodyClass: FieldClass)
  {
    && |all| == |ps| + |extras|
    && (forall i :: 0 <= i < |ps| ==> all[i] == PlaceParam(ps[i], pathNames, bodyClass))
    && (forall i :: 0 <= i < |extras| ==> all[|ps| + i] == PlaceExtra(extras[i]))
  }

  /** A parameter that none of the earlier rules has taken: no system resolver, not part of the path. */
  predicate IsOpen(p: Param, pathNames: set<string>) {
    && !IsSkipped(p) && p.name !in pathNames && !DefaultOf(p).System?
    && !(p.resolverForType.Some? && DefaultOf(p).Empty?)
  }

  /** What its declaration says about a parameter, or what its type makes of it when nothing is said. */
  predicate Declares(p: Param, location: Location) {
    if DefaultOf(p).Field? then
      var info := DefaultOf(p).info;
      match location
      case InHeader => info.HeaderInfo?
      case InPath => info.PathInfo?
      case InQuery => info.QueryInfo?
      case InCookie => info.CookieInfo?
      case InBody => info.BodyInfo? || info.WsBodyInfo? || info.FormInfo? || info.FileInfo?
      case InSystem => false
      case Custom(name) => false
    else location == if p.shape == Scalar then InQuery else InBody
  }

  /** What undeclared bodies become. */
  function BodyClassOf(websocket: bool): FieldClass {
    if websocket then WsBodyInfo(false) else BodyInfo(false)
  }

  /** Open parameters go where they are declared to, undeclared scalars to the query and everything else to the body. */
  lemma OpenParametersGoWhereDeclared(p: Param, pathNames: set<string>, websocket: bool, location: Location)
    requires IsOpen(p, pathNames)
    requires PlaceParam(p, pathNames, BodyClassOf(websocket)).Place?
    ensures PlaceParam(p, pathNames, BodyClassOf(websocket)).resolver.location == location <==> Declares(p, location)
  {
  }

  /** A path parameter goes to the path, unless it is declared otherwise inside an annotation next to a path default. */
  lemma PathParametersGoToThePath(p: Param, pathNames: set<string>, bodyClass: FieldClass)
    requires !IsSkipped(p) && p.name in pathNames && !DefaultOf(p).System? && p.resolverForType.None?
    requires PlaceParam(p, pathNames, bodyClass).Place?
    ensures PlaceParam(p, pathNames, bodyClass).resolver.location == InPath ||
            (p.raw.Field? && p.raw.info == PathInfo && p.annotated.Some? && p.annotated.value.Field? &&
             p.annotated.value.info != PathInfo)
    ensures p.shape == Scalar
  {
  }

  function Placements(
      ps: seq<Param>, extras: seq<Param>, pathNames: set<string>, bodyClass: FieldClass): (all: seq<Placement>)
    ensures Classifies(all, ps, extras, pathNames, bodyClass)
  {
    seq(|ps|, i requires 0 <= i < |ps| => PlaceParam(ps[i], pathNames, bodyClass)) +
    seq(|extras|, i requires 0 <= i < |extras| => PlaceExtra(extras[i]))
  }

  function Resolvers(placements: seq<Placement>): seq<Resolver> {
    if placements == [] then []
    else
      var last := placements[|placements| - 1];
      Resolvers(placements[..|placements| - 1]) + if last.Place? then [last.resolver] else []
  }

  /** The resolvers of one location, in order. */
  function Group(rs: seq<Resolver>, location: Location): seq<Resolver> {
    if rs == [] then []
    else
      var last := rs[|rs| - 1];
      Group(rs[..|rs| - 1], location) + if last.location == location then [last] else []
  }

  /** The resolvers of the body that have a field, in order. */
  function Bodies(rs: seq<Resolver>): (g: seq<Resolver>)
    ensures HaveFields(g)
  {
    if rs == [] then []
    else
      var last := rs[|rs| - 1];
      Bodies(rs[..|rs| - 1]) + if last.location == InBody && last.field.Some? then [last] else []
  }

  ghost predicate HaveFields(bodies: seq<Resolver>) {
    forall i :: 0 <= i < |bodies| ==> bodies[i].field.Some?
  }

  lemma {:induction false} InGroup(rs: seq<Resolver>, location: Location, r: Resolver)
    ensures r in Group(rs, location) <==> r in rs && r.location == location
  {
    if rs != [] {
      InGroup(rs[..|rs| - 1], location, r);
      assert rs == rs[..|rs| - 1] + [rs[|rs| - 1]];
    }
  }

  lemma {:induction false} InBodies(rs: seq<Resolver>, r: Resolver)
    ensures r in Bodies(rs) <==> r in rs && r.location == InBody && r.field.Some?
  {
    if rs != [] {
      InBodies(rs[..|rs| - 1], r);
      assert rs == rs[..|rs| - 1] + [rs[|rs| - 1]];
    }
  }

  /** No system resolver names the body as its location. */
  ghost predicate BodiesAreFields(rs: seq<Resolver>) {
    forall r :: r in rs && r.location == InBody ==> r.field.Some?
  }

  lemma {:induction false} BodiesAreTheGroup(rs: seq<Resolver>)
    requires BodiesAreFields(rs)
    ensures Bodies(rs) == Group(rs, InBody)
  {
    if rs != [] {
      BodiesAreTheGroup(rs[..|rs| - 1]);
    }
  }

  /** The resolvers run besides the body's, in the order in which they run. */
  function RouteModels(rs: seq<Resolver>): seq<Resolver> {
    Group(rs, InHeader) + Group(rs, InPath) + Group(rs, InQuery) + Group(rs, InCookie) + Group(rs, InSystem)
  }

  /** The names in the fields of the system resolver objects. */
  type Labels = map<int, string>

  /** Placing a system resolver writes the parameter's name into the object. */
  function NamedBy(names: Labels, r: Resolver): Labels {
    if r.id.Some? then names[r.id.value := r.name] else names
  }

  function NamedByAll(names: Labels, rs: seq<Resolver>): Labels {
    if rs == [] then names else NamedBy(NamedByAll(names, rs[..|rs| - 1]), rs[|rs| - 1])
  }

  /** The name under which a resolver answers when it is run. */
  function RunName(names: Labels, r: Resolver): string {
    if r.id.Some? && r.id.value in names then names[r.id.value] else r.name
  }

  /** One of the five groups of route models, or a field of the body. */
  predicate IsRun(r: Resolver) {
    !r.location.Custom? && (r.location == InBody ==> r.field.Some?)
  }

  // ----- building -----

  type Fields = seq<Item<string, Resolver>>
  type Classes = seq<Item<string, FieldClass>>

  /** Several bodies are the fields of one model, by key, and are read the way of one class. */
  datatype Body =
    | NoBody
    | Single(resolver: Resolver)
    | Grouped(resolvers: seq<Resolver>, fields: Fields, read: FieldClass)

  /** One body that is not embedded is used as it is; otherwise all are grouped. */
  ghost function BodyOf(bodies: seq<Resolver>): Body
    requires HaveFields(bodies)
  {
    if bodies == [] then NoBody
    else if |bodies| == 1 && !Embeds(bodies[0]) then Single(bodies[0])
    else Grouped(bodies, FieldsOf(bodies), ReadAs(bodies))
  }

  predicate Embeds(r: Resolver)
    requires r.field.Some?
  {
    var info := r.field.value.info;
    (info.BodyInfo? || info.WsBodyInfo?) && info.embed
  }

  /** The fields of the one model; of several with one key the last stays. */
  ghost function FieldsOf(bodies: seq<Resolver>): Fields
    requires HaveFields(bodies)
  {
    if bodies == [] then []
    else
      var last := bodies[|bodies| - 1];
      Put(FieldsOf(bodies[..|bodies| - 1]), last.field.value.key, last)
  }

  /** The class of the last body of each media type. */
  ghost function ClassesOf(bodies: seq<Resolver>): (classes: Classes)
    requires HaveFields(bodies)
    ensures bodies != [] ==> classes != []
  {
    if bodies == [] then []
    else
      var last := bodies[|bodies| - 1].field.value;
      Put(ClassesOf(bodies[..|bodies| - 1]), last.mediaType, last.info)
  }

  /** `sorted(..., reverse=True)[0]`. */
  function Greatest(classes: Classes): Item<string, FieldClass>
    requires classes != []
  {
    if |classes| == 1 then classes[0]
    else
      var g := Greatest(classes[1..]);
      if RouteSorting.TextLeq(g.key, classes[0].key) then classes[0] else g
  }

  ghost function ReadAs(bodies: seq<Resolver>): FieldClass
    requires HaveFields(bodies) && bodies != []
  {
    Greatest(ClassesOf(bodies)).value
  }

  lemma {:induction false} PutGreatest(classes: Classes, key: string, info: FieldClass)
    requires classes != []
    ensures Put(classes, key, info) != []
    ensures Greatest(Put(classes, key, info)) ==
            if RouteSorting.TextLeq(Greatest(classes).key, key) then Item(key, info) else Greatest(classes)
  {
    var d := classes[0].key;
    RouteSorting.TextLeqIsTotal(d, key);
    if |classes| == 1 {
      if d != key {
        assert Put(classes, key, info) == [classes[0], Item(key, info)];
        assert Greatest([Item(key, info)]) == Item(key, info);
        if RouteSorting.TextLeq(key, d) && RouteSorting.TextLeq(d, key) {
          RouteSorting.TextLeqIsAntisymmetric(key, d);
        }
      }
    } else {
      var g := Greatest(classes[1..]).key;
      RouteSorting.TextLeqIsTotal(g, key);
      if d == key {
        assert Put(classes, key, info)[1..] == classes[1..];
      } else {
        PutGreatest(classes[1..], key, info);
        assert Put(classes, key, info)[1..] == Put(classes[1..], key, info);
        GreatestOfThree(d, g, key);
      }
    }
  }

  lemma GreatestOfThree(d: string, g: string, key: string)
    requires d != key
    ensures RouteSorting.TextLeq(g, key) && RouteSorting.TextLeq(key, d) ==>
              RouteSorting.TextLeq(g, d) && !RouteSorting.TextLeq(d, key)
    ensures RouteSorting.TextLeq(g, d) && RouteSorting.TextLeq(d, key) ==> RouteSorting.TextLeq(g, key)
  {
    if RouteSorting.TextLeq(g, key) && RouteSorting.TextLeq(key, d) {
      RouteSorting.TextLeqIsTransitive(g, key, d);
      if RouteSorting.TextLeq(d, key) {
        RouteSorting.TextLeqIsAntisymmetric(d, key);
      }
    }
    if RouteSorting.TextLeq(g, d) && RouteSorting.TextLeq(d, key) {
      RouteSorting.TextLeqIsTransitive(g, d, key);
    }
  }

  /** The body at `k` has the greatest media type, and is the last that has it. */
  ghost predicate Decides(bodies: seq<Resolver>, k: nat)
    requires HaveFields(bodies)
  {
    && k < |bodies|
    && (forall j :: 0 <= j < |bodies| ==>
          RouteSorting.TextLeq(bodies[j].field.value.mediaType, bodies[k].field.value.mediaType))
    && forall j :: k < j < |bodies| ==> bodies[j].field.value.mediaType != bodies[k].field.value.mediaType
  }

  /** Several bodies are read the way of the last one with the greatest media type. */
  lemma {:induction false} LastOfGreatestDecides(bodies: seq<Resolver>) returns (k: nat)
    requires HaveFields(bodies) && bodies != []
    ensures Decides(bodies, k) && ReadAs(bodies) == bodies[k].field.value.info
    ensures Greatest(ClassesOf(bodies)).key == bodies[k].field.value.mediaType
    decreases |bodies|
  {
    var n := |bodies| - 1;
    var init, last := bodies[..n], bodies[n].field.value;
    RouteSorting.TextLeqIsTotal(last.mediaType, last.mediaType);
    if n == 0 {
      k := 0;
      assert ClassesOf(bodies) == [Item(last.mediaType, last.info)];
    } else {
      k := LastOfGreatestDecides(init);
      PutGreatest(ClassesOf(init), last.mediaType, last.info);
      var greatest := init[k].field.value.mediaType;
      RouteSorting.TextLeqIsTotal(greatest, last.mediaType);
      if RouteSorting.TextLeq(greatest, last.mediaType) {
        forall j | 0 <= j < n
          ensures RouteSorting.TextLeq(bodies[j].field.value.mediaType, last.mediaType)
        {
          assert init[j] == bodies[j];
          RouteSorting.TextLeqIsTransitive(bodies[j].field.value.mediaType, greatest, last.mediaType);
        }
        k := n;
      } else {
        assert forall j :: 0 <= j < n ==> init[j] == bodies[j];
      }
    }
  }

  type Buckets = map<Location, seq<Resolver>>

  function Bucket(buckets: Buckets, location: Location): seq<Resolver> {
    if location in buckets then buckets[location] else []
  }

  ghost predicate GroupsAre(buckets: Buckets, rs: seq<Resolver>) {
    forall location :: Bucket(buckets, location) == Group(rs, location)
  }

  lemma GroupSnoc(rs: seq<Resolver>, r: Resolver, location: Location)
    ensures Group(rs + [r], location) == Group(rs, location) + if r.location == location then [r] else []
  {
    assert (rs + [r])[..|rs|] == rs;
  }

  lemma ResolversSnoc(before: seq<Placement>, p: Placement)
    ensures Resolvers(before + [p]) == if p.Place? then Resolvers(before) + [p.resolver] else Resolvers(before)
  {
    assert (before + [p])[..|before|] == before;
  }

  /** The groups other than the body's. */
  ghost predicate OtherGroupsAre(buckets: Buckets, rs: seq<Resolver>) {
    forall location :: location != InBody ==> Bucket(buckets, location) == Group(rs, location)
  }

  function FromBuckets(buckets: Buckets): seq<Resolver> {
    Bucket(buckets, InHeader) + Bucket(buckets, InPath) + Bucket(buckets, InQuery) + Bucket(buckets, InCookie) +
    Bucket(buckets, InSystem)
  }

  lemma FromBucketsIsRouteModels(buckets: Buckets, rs: seq<Resolver>)
    requires OtherGroupsAre(buckets, rs)
    ensures FromBuckets(buckets) == RouteModels(rs)
  {
    assert Bucket(buckets, InHeader) == Group(rs, InHeader);
    assert Bucket(buckets, InPath) == Group(rs, InPath);
    assert Bucket(buckets, InQuery) == Group(rs, InQuery);
    assert Bucket(buckets, InCookie) == Group(rs, InCookie);
    assert Bucket(buckets, InSystem) == Group(rs, InSystem);
  }

  ghost predicate NoneFails(placements: seq<Placement>) {
    forall i :: 0 <= i < |placements| ==> !placements[i].Fail?
  }

  /** The groups and names are what the first `n` placements made of them, and none of these failed. */
  ghost predicate BuiltFrom(buckets: Buckets, start: Labels, names: Labels, all: seq<Placement>, n: nat) {
    && n <= |all| && NoneFails(all[..n])
    && GroupsAre(buckets, Resolvers(all[..n])) && names == NamedByAll(start, Resolvers(all[..n]))
  }

  lemma BuiltFromAll(buckets: Buckets, start: Labels, names: Labels, all: seq<Placement>)
    requires BuiltFrom(buckets, start, names, all, |all|)
    ensures NoneFails(all) && GroupsAre(buckets, Resolvers(all)) && names == NamedByAll(start, Resolvers(all))
  {
    assert all[..|all|] == all;
  }

  lemma BuiltByPlacing(buckets: Buckets, start: Labels, before: Labels, names: Labels, all: seq<Placement>, i: nat)
    requires i < |all| && all[i].Place? && NoneFails(all[..i])
    requires before == NamedByAll(start, Resolvers(all[..i])) && names == NamedBy(before, all[i].resolver)
    requires GroupsAre(buckets, Resolvers(all[..i]) + [all[i].resolver])
    ensures BuiltFrom(buckets, start, names, all, i + 1)
  {
    assert all[..i + 1] == all[..i] + [all[i]];
    ResolversSnoc(all[..i], all[i]);
    NamedSnoc(start, Resolvers(all[..i]), all[i].resolver);
  }

  lemma BuiltBySkipping(buckets: Buckets, start: Labels, names: Labels, all: seq<Placement>, i: nat)
    requires i < |all| && all[i].Skip? && BuiltFrom(buckets, start, names, all, i)
    ensures BuiltFrom(buckets, start, names, all, i + 1)
  {
    assert all[..i + 1] == all[..i] + [all[i]];
    ResolversSnoc(all[..i], all[i]);
  }

  lemma NothingBuilt(start: Labels, all: seq<Placement>)
    ensures BuiltFrom(map[], start, start, all, 0)
  {
    assert all[..0] == [];
  }

  lemma NamedSnoc(start: Labels, rs: seq<Resolver>, r: Resolver)
    ensures NamedByAll(start, rs + [r]) == NamedBy(NamedByAll(start, rs), r)
  {
    assert (rs + [r])[..|rs|] == rs;
  }

  lemma ExtraIsAt(
      all: seq<Placement>, ps: seq<Param>, extras: seq<Param>, pathNames: set<string>, bodyClass: FieldClass, i: nat)
    requires Classifies(all, ps, extras, pathNames, bodyClass) && i < |extras|
    ensures |ps| + i < |all| && all[|ps| + i] == PlaceExtra(extras[i])
  {
  }

  class EndpointArgsModel {
    const signature: seq<Param>
    const extraArgs: seq<Param>
    const pathNames: set<string>
    const websocket: bool
    var buckets: Buckets
    var routeModels: seq<Resolver>
    var body: Body
    var wsBodies: seq<Resolver>
    var names: Labels

    constructor (
      signature: seq<Param>, extraArgs: seq<Param>, pathNames: set<string>, websocket: bool, names: Labels)
      ensures this.signature == signature && this.extraArgs == extraArgs && this.pathNames == pathNames
      ensures this.websocket == websocket && wsBodies == [] && routeModels == [] && body == NoBody
      ensures this.names == names
    {
      this.signature, this.extraArgs, this.pathNames, this.websocket := signature, extraArgs, pathNames, websocket;
      this.names := names;
      buckets, routeModels, body, wsBodies := map[], [], NoBody, [];
    }

    function BodyClass(): FieldClass {
      BodyClassOf(websocket)
    }

    function All(): seq<Placement> {
      Placements(signature, extraArgs, pathNames, BodyClass())
    }

    method AddToModel(r: Resolver, ghost rs: seq<Resolver>)
      requires GroupsAre(buckets, rs)
      modifies this`buckets, this`names
      ensures GroupsAre(buckets, rs + [r]) && names == NamedBy(old(names), r)
    {
      if r.id.Some? {
        names := names[r.id.value := r.name];
      }
      buckets := buckets[r.location := Bucket(buckets, r.location) + [r]];
      forall location
        ensures Bucket(buckets, location) == Group(rs + [r], location)
      {
        GroupSnoc(rs, r, location);
      }
    }

    /** Handles one parameter; false when it raises. */
    method Handle(placement: Placement, ghost start: Labels, ghost all: seq<Placement>, ghost i: nat)
      returns (ok: bool)
      requires i < |all| && all[i] == placement && BuiltFrom(buckets, start, names, all, i)
      modifies this`buckets, this`names
      ensures ok <==> !placement.Fail?
      ensures ok ==> BuiltFrom(buckets, start, names, all, i + 1)
    {
      ok := !placement.Fail?;
      if placement.Place? {
        AddToModel(placement.resolver, Resolvers(all[..i]));
        BuiltByPlacing(buckets, start, old(names), names, all, i);
      } else if ok {
        BuiltBySkipping(buckets, start, names, all, i);
      }
    }

    /** `compute_route_parameter_list`. */
    method ComputeRouteParameters(ghost start: Labels, ghost all: seq<Placement>) returns (ok: bool)
      requires Classifies(all, signature, extraArgs, pathNames, BodyClass())
      requires BuiltFrom(buckets, start, names, all, 0)
      modifies this`buckets, this`names
      ensures ok ==> BuiltFrom(buckets, start, names, all, |signature|)
      ensures !ok ==> !NoneFails(all)
    {
      var i := 0;
      while i < |signature|
        invariant 0 <= i <= |signature|
        invariant BuiltFrom(buckets, start, names, all, i)
      {
        ok := Handle(PlaceParam(signature[i], pathNames, BodyClass()), start, all, i);
        if !ok {
          return;
        }
        i := i + 1;
      }
      ok := true;
    }

    /** `compute_extra_route_args`. */
    method ComputeExtraRouteArgs(ghost start: Labels, ghost all: seq<Placement>) returns (ok: bool)
      requires Classifies(all, signature, extraArgs, pathNames, BodyClass())
      requires BuiltFrom(buckets, start, names, all, |signature|)
      modifies this`buckets, this`names
      ensures ok ==> BuiltFrom(buckets, start, names, all, |all|)
      ensures !ok ==> !NoneFails(all)
    {
      var i := 0;
      ghost var k := |signature|;
      while i < |extraArgs|
        invariant 0 <= i <= |extraArgs| && k == |signature| + i
        invariant BuiltFrom(buckets, start, names, all, k)
      {
        ExtraIsAt(all, signature, extraArgs, pathNames, BodyClass(), i);
        ok := Handle(PlaceExtra(extraArgs[i]), start, all, k);
        if !ok {
          return;
        }
        i, k := i + 1, k + 1;
      }
      ok := true;
    }

    /** `build_body_field` of a request: the body resolver is worked out anew; it fails on a body without a field. */
    method BuildRequestBody(ghost rs: seq<Resolver>) returns (ok: bool)
      requires GroupsAre(buckets, rs)
      modifies this`body
      ensures ok <==> BodiesAreFields(rs)
      ensures ok ==> body == BodyOf(Bodies(rs))
    {
      body, ok := NoBody, true;
      var bodies := Bucket(buckets, InBody);
      assert bodies == Group(rs, InBody);
      OnlyFieldsIff(rs);
      if |bodies| == 1 && bodies[0].field.Some? && !Embeds(bodies[0]) {
        body := Single(bodies[0]);
      } else if bodies != [] {
        ok := GroupBodies(bodies);
      }
    }

    /** Makes one model of several bodies. */
    method GroupBodies(bodies: seq<Resolver>) returns (ok: bool)
      requires bodies != []
      modifies this`body
      ensures ok <==> HaveFields(bodies)
      ensures ok ==> body == Grouped(bodies, FieldsOf(bodies), ReadAs(bodies))
    {
      var fields: Fields, classes: Classes, i := [], [], 0;
      while i < |bodies|
        invariant 0 <= i <= |bodies| && HaveFields(bodies[..i])
        invariant fields == FieldsOf(bodies[..i]) && classes == ClassesOf(bodies[..i])
      {
        if bodies[i].field.None? {
          return false;
        }
        assert bodies[..i + 1][..i] == bodies[..i];
        var f := bodies[i].field.value;
        fields := Put(fields, f.key, bodies[i]);
        classes := Put(classes, f.mediaType, f.info);
        i := i + 1;
      }
      assert bodies[..i] == bodies;
      body := Grouped(bodies, fields, Greatest(classes).value);
      ok := true;
    }

    /**
     `build_body_field` of a websocket: the body's resolvers move to a list that is never emptied, and
     system resolvers stay where they are.
     */
    method BuildWebsocketBody(ghost rs: seq<Resolver>)
      requires GroupsAre(buckets, rs)
      modifies this`buckets, this`wsBodies
      ensures wsBodies == old(wsBodies) + Bodies(rs)
      ensures OtherGroupsAre(buckets, rs) && Bucket(buckets, InBody) == WithoutField(Group(rs, InBody))
    {
      var bodies := Bucket(buckets, InBody);
      GroupIsOfItsLocation(rs, InBody);
      NothingMoved(bodies, wsBodies);
      var i := 0;
      while i < |bodies|
        invariant 0 <= i <= |bodies|
        invariant Moved(bodies, i, old(wsBodies), wsBodies, Bucket(buckets, InBody))
        invariant OtherGroupsAre(buckets, rs)
      {
        ghost var before := Bucket(buckets, InBody);
        MoveOne(bodies, i, old(wsBodies), wsBodies, before);
        MoveField(bodies[i]);
        i := i + 1;
      }
      MovedAll(bodies, old(wsBodies), wsBodies, Bucket(buckets, InBody));
      BodiesOfGroup(rs);
    }

    method MoveField(r: Resolver)
      modifies this`buckets, this`wsBodies
      ensures wsBodies == old(wsBodies) + if r.field.Some? then [r] else []
      ensures Bucket(buckets, InBody) ==
              if r.field.Some? then Remove(old(Bucket(buckets, InBody)), r) else old(Bucket(buckets, InBody))
      ensures forall location :: location != InBody ==> Bucket(buckets, location) == old(Bucket(buckets, location))
    {
      if r.field.Some? {
        wsBodies := wsBodies + [r];
        buckets := buckets[InBody := Remove(Bucket(buckets, InBody), r)];
      }
    }

    /** `build_model`. */
    method BuildModel() returns (ok: bool)
      modifies this
      ensures ok <==> NoneFails(All()) && (websocket || BodiesAreFields(Resolvers(All())))
      ensures ok ==> routeModels == RouteModels(Resolvers(All()))
      ensures ok && !websocket ==> body == BodyOf(Bodies(Resolvers(All()))) && wsBodies == old(wsBodies)
      ensures ok && websocket ==> wsBodies == old(wsBodies) + Bodies(Resolvers(All()))
      ensures ok ==> names == NamedByAll(old(names), Resolvers(All()))
    {
      ghost var start, all := names, All();
      NothingBuilt(start, all);
      buckets := map[];
      ok := ComputeRouteParameters(start, all);
      if ok {
        ok := ComputeExtraRouteArgs(start, all);
      }
      if ok {
        BuiltFromAll(buckets, start, names, all);
        ok := Assemble(Resolvers(all));
      }
    }

    /** The end of `build_model`: the body, and the other groups in their order. */
    method Assemble(ghost rs: seq<Resolver>) returns (ok: bool)
      requires GroupsAre(buckets, rs)
      modifies this`buckets, this`body, this`wsBodies, this`routeModels
      ensures ok <==> websocket || BodiesAreFields(rs)
      ensures ok ==> routeModels == RouteModels(rs)
      ensures ok && !websocket ==> body == BodyOf(Bodies(rs)) && wsBodies == old(wsBodies)
      ensures ok && websocket ==> wsBodies == old(wsBodies) + Bodies(rs)
    {
      ok := BuildBodyField(rs);
      if ok {
        FromBucketsIsRouteModels(buckets, rs);
        routeModels := FromBuckets(buckets);
      }
    }

    method BuildBodyField(ghost rs: seq<Resolver>) returns (ok: bool)
      requires GroupsAre(buckets, rs)
      modifies this`buckets, this`body, this`wsBodies
      ensures OtherGroupsAre(buckets, rs)
      ensures ok <==> websocket || BodiesAreFields(rs)
      ensures ok && !websocket ==> body == BodyOf(Bodies(rs)) && wsBodies == old(wsBodies)
      ensures ok && websocket ==> wsBodies == old(wsBodies) + Bodies(rs)
    {
      ok := true;
      if websocket {
        BuildWebsocketBody(rs);
      } else {
        ok := BuildRequestBody(rs);
      }
    }
  }

  lemma OnlyFieldsIff(rs: seq<Resolver>)
    ensures HaveFields(Group(rs, InBody)) <==> BodiesAreFields(rs)
    ensures BodiesAreFields(rs) ==> Bodies(rs) == Group(rs, InBody)
  {
    forall r
      ensures r in Group(rs, InBody) <==> r in rs && r.location == InBody
    {
      InGroup(rs, InBody, r);
    }
    if HaveFields(Group(rs, InBody)) {
      assert BodiesAreFields(rs);
    }
    if BodiesAreFields(rs) {
      assert forall i :: 0 <= i < |Group(rs, InBody)| ==> Group(rs, InBody)[i] in Group(rs, InBody);
      BodiesAreTheGroup(rs);
    }
  }

  /** `list.remove`: the first occurrence goes. */
  function Remove(s: seq<Resolver>, r: Resolver): seq<Resolver> {
    if s == [] then [] else if s[0] == r then s[1..] else [s[0]] + Remove(s[1..], r)
  }

  function WithoutField(rs: seq<Resolver>): (g: seq<Resolver>)
    ensures forall i :: 0 <= i < |g| ==> g[i].field.None?
  {
    if rs == [] then []
    else WithoutField(rs[..|rs| - 1]) + if rs[|rs| - 1].field.None? then [rs[|rs| - 1]] else []
  }

  lemma {:induction false} RemoveFrom(a: seq<Resolver>, r: Resolver, b: seq<Resolver>)
    requires r !in a
    ensures Remove(a + [r] + b, r) == a + b
    decreases |a|
  {
    if a == [] {
      assert a + [r] + b == [r] + b;
    } else {
      RemoveFrom(a[1..], r, b);
      assert (a + [r] + b)[1..] == a[1..] + [r] + b;
      assert [a[0]] + (a[1..] + b) == a + b;
    }
  }

  /** The first `i` bodies have been looked at: the fields are in the list, the others left in the group. */
  ghost predicate Moved(
      bodies: seq<Resolver>, i: nat, start: seq<Resolver>, list: seq<Resolver>, group: seq<Resolver>)
  {
    i <= |bodies| && list == start + Bodies(bodies[..i]) && group == WithoutField(bodies[..i]) + bodies[i..]
  }

  lemma NothingMoved(bodies: seq<Resolver>, start: seq<Resolver>)
    ensures Moved(bodies, 0, start, start, bodies)
  {
    assert bodies[..0] == [] && bodies[0..] == bodies && start + [] == start && [] + bodies == bodies;
  }

  lemma MoveOne(bodies: seq<Resolver>, i: nat, start: seq<Resolver>, list: seq<Resolver>, group: seq<Resolver>)
    requires i < |bodies| && bodies[i].location == InBody && Moved(bodies, i, start, list, group)
    ensures Moved(bodies, i + 1, start, list + if bodies[i].field.Some? then [bodies[i]] else [],
                  if bodies[i].field.Some? then Remove(group, bodies[i]) else group)
  {
    var r, left := bodies[i], WithoutField(bodies[..i]);
    assert bodies[..i + 1][..i] == bodies[..i];
    assert group == left + [r] + bodies[i + 1..];
    if r.field.Some? {
      RemoveFrom(left, r, bodies[i + 1..]);
      assert list + [r] == start + (Bodies(bodies[..i]) + [r]);
    }
  }

  lemma MovedAll(bodies: seq<Resolver>, start: seq<Resolver>, list: seq<Resolver>, group: seq<Resolver>)
    requires Moved(bodies, |bodies|, start, list, group)
    ensures list == start + Bodies(bodies) && group == WithoutField(bodies)
  {
    assert bodies[..|bodies|] == bodies;
  }

  lemma {:induction false} BodiesOfGroup(rs: seq<Resolver>)
    ensures Bodies(Group(rs, InBody)) == Bodies(rs)
  {
    if rs != [] {
      var init, last := rs[..|rs| - 1], rs[|rs| - 1];
      BodiesOfGroup(init);
      assert rs == init + [last];
      BodiesSnoc(init, last);
      GroupSnoc(init, last, InBody);
      if last.location == InBody {
        BodiesSnoc(Group(init, InBody), last);
      } else {
        assert Group(rs, InBody) == Group(init, InBody);
        assert Bodies(rs) == Bodies(init);
      }
    }
  }

  lemma BodiesSnoc(rs: seq<Resolver>, r: Resolver)
    ensures Bodies(rs + [r]) == Bodies(rs) + if r.location == InBody && r.field.Some? then [r] else []
  {
    assert (rs + [r])[..|rs|] == rs;
  }

  // ----- conservation -----

  function BodyResolvers(b: Body): seq<Resolver> {
    match b
    case NoBody => []
    case Single(r) => [r]
    case Grouped(rs, fields, read) => rs
  }

  lemma BodyOfKeepsAll(bodies: seq<Resolver>)
    requires HaveFields(bodies)
    ensures BodyResolvers(BodyOf(bodies)) == bodies
  {
  }

  lemma {:induction false} GroupCount(rs: seq<Resolver>, location: Location, x: Resolver)
    ensures multiset(Group(rs, location))[x] == if x.location == location then multiset(rs)[x] else 0
  {
    if rs != [] {
      var init, last := rs[..|rs| - 1], rs[|rs| - 1];
      assert rs == init + [last];
      GroupCount(init, location, x);
    }
  }

  lemma {:induction false} BodiesCount(rs: seq<Resolver>, x: Resolver)
    ensures multiset(Bodies(rs))[x] == if x.location == InBody && x.field.Some? then multiset(rs)[x] else 0
  {
    if rs != [] {
      var init, last := rs[..|rs| - 1], rs[|rs| - 1];
      assert rs == init + [last];
      BodiesCount(init, x);
    }
  }

  lemma RouteModelsCount(rs: seq<Resolver>, x: Resolver)
    ensures multiset(RouteModels(rs))[x] == if x.location.Custom? || x.location == InBody then 0 else multiset(rs)[x]
  {
    GroupCount(rs, InHeader, x);
    GroupCount(rs, InPath, x);
    GroupCount(rs, InQuery, x);
    GroupCount(rs, InCookie, x);
    GroupCount(rs, InSystem, x);
    assert multiset(RouteModels(rs)) ==
           multiset(Group(rs, InHeader)) + multiset(Group(rs, InPath)) + multiset(Group(rs, InQuery)) +
           multiset(Group(rs, InCookie)) + multiset(Group(rs, InSystem));
  }

  /** The body's resolvers as a websocket holds them after `n` builds. */
  function Repeated(bodies: seq<Resolver>, n: nat): seq<Resolver> {
    if n == 0 then [] else Repeated(bodies, n - 1) + bodies
  }

  lemma {:induction false} RepeatedCount(bodies: seq<Resolver>, n: nat, x: Resolver)
    ensures multiset(Repeated(bodies, n))[x] == n * multiset(bodies)[x]
    decreases n
  {
    if n > 0 {
      RepeatedCount(bodies, n - 1, x);
      OneMoreTime(n, multiset(bodies)[x]);
    }
  }

  lemma OneMoreTime(n: nat, m: nat)
    requires n > 0
    ensures n * m == (n - 1) * m + m
  {
  }

  lemma RepeatedOnce(bodies: seq<Resolver>)
    ensures Repeated(bodies, 1) == bodies
  {
    assert Repeated(bodies, 1) == Repeated(bodies, 0) + bodies;
  }

  /** How often a resolver is run: as often as it was placed, or once a build, or never if its location is unknown. */
  lemma RunAsOftenAsPlaced(rs: seq<Resolver>, n: nat, x: Resolver)
    ensures multiset(RouteModels(rs) + Repeated(Bodies(rs), n))[x] ==
            if !IsRun(x) then 0 else if x.location == InBody then n * multiset(rs)[x] else multiset(rs)[x]
  {
    RouteModelsCount(rs, x);
    BodiesCount(rs, x);
    RepeatedCount(Bodies(rs), n, x);
  }

  ghost predicate AllKnown(rs: seq<Resolver>) {
    forall i :: 0 <= i < |rs| ==> IsRun(rs[i])
  }

  /**
   After `n` builds a websocket runs everything placed exactly once exactly when every location is known
   and this was the first build, or there is nothing in the body.
   */
  lemma WebsocketRunsOnceIff(rs: seq<Resolver>, n: nat)
    ensures multiset(RouteModels(rs) + Repeated(Bodies(rs), n)) == multiset(rs) <==>
            AllKnown(rs) && (n == 1 || Bodies(rs) == [])
  {
    if AllKnown(rs) && (n == 1 || Bodies(rs) == []) {
      AllRunOnce(rs, n);
    } else if !AllKnown(rs) {
      var i :| 0 <= i < |rs| && !IsRun(rs[i]);
      RunAsOftenAsPlaced(rs, n, rs[i]);
      assert rs[i] in multiset(rs);
    } else {
      BodiesRunAgain(rs, n);
    }
  }

  lemma AllRunOnce(rs: seq<Resolver>, n: nat)
    requires AllKnown(rs) && (n == 1 || Bodies(rs) == [])
    ensures multiset(RouteModels(rs) + Repeated(Bodies(rs), n)) == multiset(rs)
  {
    var run := multiset(RouteModels(rs) + Repeated(Bodies(rs), n));
    forall x
      ensures run[x] == multiset(rs)[x]
    {
      RunsOnce(rs, n, x);
    }
  }

  lemma RunsOnce(rs: seq<Resolver>, n: nat, x: Resolver)
    requires AllKnown(rs) && (n == 1 || Bodies(rs) == [])
    ensures multiset(RouteModels(rs) + Repeated(Bodies(rs), n))[x] == multiset(rs)[x]
  {
    RunAsOftenAsPlaced(rs, n, x);
    if x in rs {
      var i :| 0 <= i < |rs| && rs[i] == x;
      InBodies(rs, x);
    } else {
      assert multiset(rs)[x] == 0;
    }
  }

  lemma BodiesRunAgain(rs: seq<Resolver>, n: nat)
    requires n != 1 && Bodies(rs) != []
    ensures multiset(RouteModels(rs) + Repeated(Bodies(rs), n)) != multiset(rs)
  {
    var x := Bodies(rs)[0];
    InBodies(rs, x);
    RunAsOftenAsPlaced(rs, n, x);
    assert x in Bodies(rs) && x in multiset(rs);
    OnlyOnceIsOnce(n, multiset(rs)[x]);
  }

  lemma OnlyOnceIsOnce(n: nat, m: nat)
    requires n != 1 && m > 0
    ensures n * m != m
  {
    if n > 1 {
      assert n * m == m + (n - 1) * m;
    }
  }

  /**
   Everything placed in a request's model is run exactly once, as a route model or in the body, exactly
   when no system resolver names a location of its own.
   */
  lemma EveryResolverIsRunOnceIffKnown(rs: seq<Resolver>)
    ensures multiset(RouteModels(rs) + BodyResolvers(BodyOf(Bodies(rs)))) == multiset(rs) <==> AllKnown(rs)
  {
    BodyOfKeepsAll(Bodies(rs));
    RepeatedOnce(Bodies(rs));
    WebsocketRunsOnceIff(rs, 1);
  }

  // ----- in which order they run -----

  /** Headers, then the path, the query, cookies, and last the system resolvers. */
  function Rank(location: Location): int {
    match location
    case InHeader => 0
    case InPath => 1
    case InQuery => 2
    case InCookie => 3
    case InSystem => 4
    case InBody => 5
    case Custom(name) => 5
  }

  ghost predicate Ordered(rs: seq<Resolver>) {
    forall i, j :: 0 <= i < j < |rs| ==> Rank(rs[i].location) <= Rank(rs[j].location)
  }

  lemma {:induction false} GroupIsOfItsLocation(rs: seq<Resolver>, location: Location)
    ensures forall i :: 0 <= i < |Group(rs, location)| ==> Group(rs, location)[i].location == location
  {
    if rs != [] {
      GroupIsOfItsLocation(rs[..|rs| - 1], location);
    }
  }

  lemma OrderedJoins(a: seq<Resolver>, b: seq<Resolver>, location: Location)
    requires Ordered(a) && forall i :: 0 <= i < |a| ==> Rank(a[i].location) <= Rank(location)
    requires forall i :: 0 <= i < |b| ==> b[i].location == location
    ensures Ordered(a + b) && forall i :: 0 <= i < |a + b| ==> Rank((a + b)[i].location) <= Rank(location)
  {
  }

  /** Route models run group by group, and within a group in the order in which they were placed. */
  lemma RouteModelsRunInOrder(rs: seq<Resolver>)
    ensures Ordered(RouteModels(rs))
    ensures forall location :: Rank(location) < 5 ==> Group(RouteModels(rs), location) == Group(rs, location)
  {
    GroupIsOfItsLocation(rs, InHeader);
    GroupIsOfItsLocation(rs, InPath);
    GroupIsOfItsLocation(rs, InQuery);
    GroupIsOfItsLocation(rs, InCookie);
    GroupIsOfItsLocation(rs, InSystem);
    var h, p := Group(rs, InHeader), Group(rs, InPath);
    var q, c := Group(rs, InQuery), Group(rs, InCookie);
    OrderedJoins([], h, InHeader);
    assert [] + h == h;
    OrderedJoins(h, p, InPath);
    OrderedJoins(h + p, q, InQuery);
    OrderedJoins(h + p + q, c, InCookie);
    OrderedJoins(h + p + q + c, Group(rs, InSystem), InSystem);
    forall location | Rank(location) < 5
      ensures Group(RouteModels(rs), location) == Group(rs, location)
    {
      GroupOfRouteModels(rs, location);
    }
  }

  lemma {:induction false} GroupJoins(a: seq<Resolver>, b: seq<Resolver>, location: Location)
    ensures Group(a + b, location) == Group(a, location) + Group(b, location)
    decreases |b|
  {
    if b == [] {
      assert a + b == a && Group(a, location) + [] == Group(a, location);
    } else {
      var n := |b| - 1;
      assert (a + b)[..|a + b| - 1] == a + b[..n];
      GroupJoins(a, b[..n], location);
    }
  }

  lemma {:induction false} GroupOfGroup(rs: seq<Resolver>, here: Location, location: Location)
    ensures Group(Group(rs, here), location) == if here == location then Group(rs, location) else []
  {
    if rs != [] {
      var init, last := rs[..|rs| - 1], rs[|rs| - 1];
      GroupOfGroup(init, here, location);
      if last.location == here {
        GroupSnoc(Group(init, here), last, location);
      } else {
        assert Group(rs, here) == Group(init, here);
        assert here == location ==> Group(rs, location) == Group(init, location);
      }
    }
  }

  lemma GroupOfFive(h: seq<Resolver>, p: seq<Resolver>, q: seq<Resolver>, c: seq<Resolver>, s: seq<Resolver>,
      location: Location)
    ensures Group(h + p + q + c + s, location) ==
            Group(h, location) + Group(p, location) + Group(q, location) + Group(c, location) + Group(s, location)
  {
    GroupJoins(h + p + q + c, s, location);
    GroupJoins(h + p + q, c, location);
    GroupJoins(h + p, q, location);
    GroupJoins(h, p, location);
  }

  lemma OneOfFive(a: seq<Resolver>, e: seq<Resolver>)
    requires e == []
    ensures a + e + e + e + e == a && e + a + e + e + e == a && e + e + a + e + e == a
    ensures e + e + e + a + e == a && e + e + e + e + a == a
  {
  }

  lemma GroupOfRouteModels(rs: seq<Resolver>, location: Location)
    requires Rank(location) < 5
    ensures Group(RouteModels(rs), location) == Group(rs, location)
  {
    GroupOfFive(
      Group(rs, InHeader), Group(rs, InPath), Group(rs, InQuery), Group(rs, InCookie), Group(rs, InSystem), location);
    GroupOfGroup(rs, InHeader, location);
    GroupOfGroup(rs, InPath, location);
    GroupOfGroup(rs, InQuery, location);
    GroupOfGroup(rs, InCookie, location);
    GroupOfGroup(rs, InSystem, location);
    OneOfFive(Group(rs, location), []);
  }

  // ----- which parameters cannot be placed, and what the others become -----

  /** A body or file, a single value or a sequence of them, or a model that splits into its fields. */
  predicate CanBeField(p: Param, declared: bool, info: FieldClass) {
    || (declared && (info.BodyInfo? || info.WsBodyInfo? || info.FileInfo?))
    || (!declared && p.shape != Scalar)
    || p.shape == Scalar || p.shape == ScalarSequence || (p.shape.Model? && p.shape.splits)
  }

  /** A parameter of the signature that is not skipped fails exactly in these cases. */
  lemma PlacementFailsIff(p: Param, pathNames: set<string>, websocket: bool)
    requires !p.tooManyAnnotations && !IsSkipped(p) && !DefaultOf(p).System?
    requires !(p.resolverForType.Some? && DefaultOf(p).Empty?)
    ensures var effective := if p.annotated.Some? then p.annotated.value else p.raw;
            PlaceParam(p, pathNames, BodyClassOf(websocket)).Fail? <==>
            if p.name in pathNames then
              || p.shape != Scalar
              || (p.raw.Field? && p.raw.info.PathInfo? && effective.Field? &&
                  (effective.info.BodyInfo? || effective.info.WsBodyInfo?))
            else
              || (p.raw.Field? && !effective.Field?)
              || !CanBeField(p, effective.Field?, if effective.Field? then effective.info else QueryInfo)
    ensures forall q: Param :: q.tooManyAnnotations ==>
              PlaceParam(q, pathNames, BodyClassOf(websocket)).Fail? && PlaceExtra(q).Fail?
    ensures !PlaceExtra(p).Fail?
  {
  }

  /** What is skipped: variable parameters, and `self` when nothing is said of it. */
  lemma SkippedIff(p: Param, pathNames: set<string>, bodyClass: FieldClass)
    requires !p.tooManyAnnotations
    ensures PlaceParam(p, pathNames, bodyClass).Skip? <==>
            p.kind == VarPositional || p.kind == VarKeyword || (p.name == "self" && p.annotationEmpty)
    ensures !PlaceExtra(p).Skip?
  {
  }

  /** System resolvers: the one for the type when there is no default, or the default itself, under its location. */
  lemma SystemParametersArePlaced(p: Param, pathNames: set<string>, bodyClass: FieldClass, location: Location, id: int)
    requires !p.tooManyAnnotations && !IsSkipped(p)
    ensures p.resolverForType == Some(location) && (p.annotated == None && p.raw == Empty) ==>
              PlaceParam(p, pathNames, bodyClass) == Place(Resolver(p.name, location, None, None))
    ensures (p.annotated == Some(System(id, location)) || (p.annotated == None && p.raw == System(id, location))) ==>
              && PlaceParam(p, pathNames, bodyClass) == Place(Resolver(p.name, location, None, Some(id)))
              && PlaceExtra(p) == Place(Resolver(p.name, location, None, Some(id)))
    ensures p.resolverForType.Some? && p.annotated == Some(Plain) && p.raw == Empty && p.shape == Scalar
            && p.name !in pathNames ==>
              PlaceParam(p, pathNames, bodyClass).Place? &&
              PlaceParam(p, pathNames, bodyClass).resolver.location == InQuery
  {
  }

  /** The field of an open parameter: as declared, with its alias and media type, or what its type makes of it. */
  lemma FieldsOfOpenParameters(p: Param, pathNames: set<string>, websocket: bool)
    requires IsOpen(p, pathNames) && PlaceParam(p, pathNames, BodyClassOf(websocket)).Place?
    ensures var r := PlaceParam(p, pathNames, BodyClassOf(websocket)).resolver;
            var effective := if p.annotated.Some? then p.annotated.value else p.raw;
            && r.name == p.name && r.id == None && r.field.Some?
            && (effective.Field? ==> r.field.value.info == effective.info)
            && (!effective.Field? && p.shape == Scalar ==> r.field.value.info == QueryInfo)
            && (!effective.Field? && p.shape != Scalar ==>
                  r.field.value.info == if websocket then WsBodyInfo(false) else BodyInfo(false))
            && r.field.value.key ==
               (if effective.Field? && effective.alias.Some? && effective.alias.value != "" then effective.alias.value
                else p.name)
            && (effective.Field? && effective.mediaType.Some? && effective.mediaType.value != "" ==>
                  r.field.value.mediaType == effective.mediaType.value)
            && (p.shape.Model? && p.shape.fields != [] && effective.Field? && effective.info.FormInfo? ==>
                  r.field.value.split ==
                  if p.raw.Field? && p.raw.info.FormInfo? then Joined else Spread(p.shape.fields))
            && (!p.shape.Model? || p.shape.fields == [] ==> r.field.value.split == AsOne)
  {
  }

  /** The field of an extra argument comes from its own default, or from its type. */
  lemma FieldsOfExtras(p: Param)
    requires !p.tooManyAnnotations && !DefaultOf(p).System?
    ensures var r := PlaceExtra(p).resolver;
            && PlaceExtra(p).Place? && r.name == p.name && r.field.Some? && r.field.value.split == AsOne
            && r.field.value.info == (if p.raw.Field? then p.raw.info
                                      else if p.shape == Scalar then QueryInfo else BodyInfo(false))
            && (r.location == InQuery <==> r.field.value.info.QueryInfo?)
            && (r.location == InPath <==> r.field.value.info.PathInfo?)
            && (r.location == InHeader <==> r.field.value.info.HeaderInfo?)
            && (r.location == InCookie <==> r.field.value.info.CookieInfo?)
  {
  }

  /** A path parameter that is a single value is taken from the path, as it describes itself if that is for the path. */
  lemma FieldsOfPathParameters(p: Param, pathNames: set<string>, bodyClass: FieldClass)
    requires !p.tooManyAnnotations && !IsSkipped(p) && p.name in pathNames && p.shape == Scalar
    requires !DefaultOf(p).System? && p.resolverForType.None? && p.annotated.None?
    ensures var r := PlaceParam(p, pathNames, bodyClass).resolver;
            && PlaceParam(p, pathNames, bodyClass).Place?
            && r.name == p.name && r.location == InPath && r.field.Some? && r.field.value.info == PathInfo
            && (p.raw.Field? && p.raw.info.PathInfo? && p.raw.alias.Some? && p.raw.alias.value != "" ==>
                  r.field.value.key == p.raw.alias.value)
            && (p.raw.Field? && !p.raw.info.PathInfo? ==> r.field.value.key == p.name)
  {
  }

  // ----- how a mixed body is read -----

  predicate IsBodyOf(r: Resolver, info: FieldClass, mediaType: string) {
    r.location == InBody && r.field.Some? && r.field.value.info == info && r.field.value.mediaType == mediaType
  }

  /** Media types that are not given: JSON for bodies, a form for forms and a multipart form for files. */
  lemma UsualMediaTypes(name: string, embed: bool)
    ensures PlaceField(name, Described(BodyInfo(embed)), AsOne).resolver.field.value.mediaType == "application/json"
    ensures PlaceField(name, Described(WsBodyInfo(embed)), AsOne).resolver.field.value.mediaType == "application/json"
    ensures PlaceField(name, Described(FormInfo), AsOne).resolver.field.value.mediaType == "application/form-data"
    ensures PlaceField(name, Described(FileInfo), AsOne).resolver.field.value.mediaType == "multipart/form-data"
  {
  }

  /** With these, a file makes the whole body a form, and otherwise a JSON body makes it JSON, forms or not. */
  lemma MixedBodiesAreRead(bodies: seq<Resolver>)
    requires HaveFields(bodies) && bodies != []
    requires forall i :: 0 <= i < |bodies| ==>
               || IsBodyOf(bodies[i], BodyInfo(false), "application/json")
               || IsBodyOf(bodies[i], FormInfo, "application/form-data")
               || IsBodyOf(bodies[i], FileInfo, "multipart/form-data")
    ensures ReadAs(bodies).FileInfo? <==> exists i :: 0 <= i < |bodies| && bodies[i].field.value.info.FileInfo?
    ensures ReadAs(bodies).FormInfo? <==> forall i :: 0 <= i < |bodies| ==> bodies[i].field.value.info.FormInfo?
  {
    var k := LastOfGreatestDecides(bodies);
    forall i | 0 <= i < |bodies|
      ensures bodies[i].field.value.info.FileInfo? ==> bodies[k].field.value.info.FileInfo?
      ensures bodies[i].field.value.info.BodyInfo? ==> !bodies[k].field.value.info.FormInfo?
    {
      NotGreater(bodies[i].field.value.mediaType, bodies[k].field.value.mediaType);
    }
  }

  /** JSON comes after a form, and a multipart form after both. */
  lemma NotGreater(a: string, b: string)
    requires RouteSorting.TextLeq(a, b)
    ensures a == "multipart/form-data" ==> b != "application/json" && b != "application/form-data"
    ensures a == "application/json" ==> b != "application/form-data"
  {
    if a == "application/json" && b == "application/form-data" {
      JsonAfterForm();
    }
  }

  lemma JsonAfterForm()
    ensures !RouteSorting.TextLeq("application/json", "application/form-data")
  {
    var prefix := "application/";
    RouteSorting.FirstDifferenceDecides(prefix, 'f', "orm-data", 'j', "son");
    assert prefix + ['j'] + "son" == "application/json";
    assert prefix + ['f'] + "orm-data" == "application/form-data";
  }
}
