/** Running an endpoint's resolvers and collecting what they give. */
module EndpointResolution {
  import opened Prelude

  type Values = map<string, int>

  /** What one resolver comes to: values and errors, or an exception. */
  datatype Outcome = Gives(values: Values, errors: seq<int>) | Raises(exc: int)

  /** What becomes of the values of a bulk resolver's parts: they are validated together, except in a plain form. */
  datatype BulkKind = Fields | GroupedForm | PlainForm

  /** A resolver; a bulk one runs its parts first. */
  datatype Resolver = Leaf(outcome: Outcome) | Bulk(kind: BulkKind, parts: seq<Resolver>, validate: Values -> Outcome)

  function Resolve(r: Resolver): Outcome
    decreases r, 1, 0
  {
    match r
    case Leaf(outcome) => outcome
    case Bulk(kind, parts, validate) =>
      var gathered := Gather(r, |parts|, Gives(map[], []));
      if gathered.Raises? || gathered.errors != [] || kind.PlainForm? then gathered
      else Validated(kind, gathered.values, validate(gathered.values))
  }

  /** A joint validation that fails leaves the values gathered, or in a grouped form what it made of them. */
  function Validated(kind: BulkKind, gathered: Values, validated: Outcome): Outcome {
    if validated.Gives? && validated.errors != [] && kind.Fields? then Gives(gathered, validated.errors) else validated
  }

  /** The first `n` parts of a bulk resolver, run in order into one dictionary and one error list. */
  function Gather(r: Resolver, n: nat, start: Outcome): Outcome
    requires r.Bulk? && n <= |r.parts|
    decreases r, 0, n
  {
    if n == 0 then start else Add(Gather(r, n - 1, start), Resolve(r.parts[n - 1]))
  }

  function Add(soFar: Outcome, next: Outcome): Outcome {
    if soFar.Raises? then soFar
    else if next.Raises? then next
    else Gives(soFar.values + next.values, soFar.errors + next.errors)
  }

  // ----- one list of resolvers -----

  function Outcomes(rs: seq<Resolver>): (os: seq<Outcome>)
    ensures |os| == |rs| && forall i :: 0 <= i < |rs| ==> os[i] == Resolve(rs[i])
  {
    seq(|rs|, i requires 0 <= i < |rs| => Resolve(rs[i]))
  }

  function Merged(os: seq<Outcome>): Values {
    if os == [] then map[]
    else Merged(os[..|os| - 1]) + if os[|os| - 1].Gives? then os[|os| - 1].values else map[]
  }

  function Errors(os: seq<Outcome>): seq<int> {
    if os == [] then [] else Errors(os[..|os| - 1]) + if os[|os| - 1].Gives? then os[|os| - 1].errors else []
  }

  ghost predicate NoneRaises(os: seq<Outcome>) {
    forall i :: 0 <= i < |os| ==> os[i].Gives?
  }

  /** A resolver's `resolve`; the loop of a bulk one fills one dictionary and one error list. */
  method RunResolver(r: Resolver) returns (o: Outcome)
    ensures o == Resolve(r)
    decreases r
  {
    match r {
      case Leaf(outcome) => o := outcome;
      case Bulk(kind, parts, validate) =>
        var values: Values := map[];
        var errors: seq<int> := [];
        var i := 0;
        while i < |parts|
          invariant 0 <= i <= |parts|
          invariant Gather(r, i, Gives(map[], [])) == Gives(values, errors)
        {
          var part := RunResolver(parts[i]);
          if part.Raises? {
            RaisedStays(r, i + 1, |parts|);
            return part;
          }
          values := values + part.values;
          errors := errors + part.errors;
          i := i + 1;
        }
        if errors != [] || kind.PlainForm? {
          return Gives(values, errors);
        }
        o := validate(values);
        if o.Gives? && o.errors != [] && kind.Fields? {
          o := Gives(values, o.errors);
        }
    }
  }

  /** Once a part has raised, the parts after it are not looked at. */
  lemma {:induction false} RaisedStays(r: Resolver, i: nat, n: nat)
    requires r.Bulk? && i <= n <= |r.parts| && Gather(r, i, Gives(map[], [])).Raises?
    ensures Gather(r, n, Gives(map[], [])) == Gather(r, i, Gives(map[], []))
    decreases n - i
  {
    if i < n {
      RaisedStays(r, i, n - 1);
    }
  }

  /** Runs the resolvers in order; an exception ends the run and says how many were started. */
  method RunAll(rs: seq<Resolver>) returns (values: Values, errors: seq<int>, raised: Option<int>, started: nat)
    ensures raised.None? <==> NoneRaises(Outcomes(rs))
    ensures raised.None? ==> started == |rs| && values == Merged(Outcomes(rs)) && errors == Errors(Outcomes(rs))
    ensures raised.Some? ==>
              1 <= started <= |rs| && Outcomes(rs)[started - 1] == Raises(raised.value) &&
              NoneRaises(Outcomes(rs)[..started - 1])
  {
    values, errors, raised, started := map[], [], None, 0;
    ghost var os := Outcomes(rs);
    while started < |rs|
      invariant started <= |rs| && raised.None?
      invariant NoneRaises(os[..started]) && values == Merged(os[..started]) && errors == Errors(os[..started])
    {
      var outcome := RunResolver(rs[started]);
      assert os[..started + 1][..started] == os[..started];
      started := started + 1;
      if outcome.Raises? {
        raised := Some(outcome.exc);
        return;
      }
      values := values + outcome.values;
      errors := errors + outcome.errors;
    }
    assert os[..|rs|] == os;
  }

  datatype Dependencies = Ready(values: Values, errors: seq<int>) | Failed(exc: int)

  /** `resolve_dependencies`, as it is promised: nothing after a body with errors, else everything. */
  ghost predicate IsResolution(body: Option<Resolver>, models: seq<Resolver>, d: Dependencies, started: nat) {
    var os := Outcomes(models);
    var first := if body.Some? then Resolve(body.value) else Gives(map[], []);
    if first.Raises? then d == Failed(first.exc) && started == 0
    else if first.errors != [] then d == Ready(map[], first.errors) && started == 0
    else if NoneRaises(os) then d == Ready(first.values + Merged(os), Errors(os)) && started == |models|
    else
      1 <= started <= |models| && NoneRaises(os[..started - 1]) && os[started - 1].Raises? &&
      d == Failed(os[started - 1].exc)
  }

  method ResolveDependencies(body: Option<Resolver>, models: seq<Resolver>) returns (d: Dependencies, started: nat)
    ensures IsResolution(body, models, d, started)
  {
    var values: Values := map[];
    started := 0;
    if body.Some? {
      var outcome := RunResolver(body.value);
      if outcome.Raises? {
        return Failed(outcome.exc), 0;
      }
      if outcome.errors != [] {
        return Ready(map[], outcome.errors), 0;
      }
      values := outcome.values;
    }
    var more, errors, raised;
    more, errors, raised, started := RunAll(models);
    d := if raised.Some? then Failed(raised.value) else Ready(values + more, errors);
  }

  /** What is promised settles the result. */
  lemma ResolutionIsUnique(
      body: Option<Resolver>, models: seq<Resolver>, d: Dependencies, n: nat, d': Dependencies, n': nat)
    requires IsResolution(body, models, d, n) && IsResolution(body, models, d', n')
    ensures d == d' && n == n'
  {
    StartedIsSettled(body, models, d, n, d', n');
    StartedIsSettled(body, models, d', n', d, n);
  }

  lemma StartedIsSettled(
      body: Option<Resolver>, models: seq<Resolver>, d: Dependencies, n: nat, d': Dependencies, n': nat)
    requires IsResolution(body, models, d, n) && IsResolution(body, models, d', n')
    ensures n >= n'
  {
  }

  // ----- what the lists hold -----

  /** Each error of each resolver is returned, in the order of the resolvers. */
  lemma {:induction false} ErrorsHoldEach(os: seq<Outcome>, i: nat)
    requires i < |os| && os[i].Gives?
    ensures exists before, after :: Errors(os) == before + os[i].errors + after && before == Errors(os[..i])
    decreases |os|
  {
    var n := |os| - 1;
    if i == n {
      assert Errors(os) == Errors(os[..n]) + os[i].errors + [];
    } else {
      ErrorsHoldEach(os[..n], i);
      assert os[..n][..i] == os[..i];
      var before, after :| Errors(os[..n]) == before + os[i].errors + after && before == Errors(os[..i]);
      var last := if os[n].Gives? then os[n].errors else [];
      assert Errors(os) == before + os[i].errors + (after + last);
    }
  }

  /** A name's value is that of the last resolver that gives one. */
  lemma {:induction false} LastValueWins(os: seq<Outcome>, i: nat, name: string)
    requires i < |os| && os[i].Gives? && name in os[i].values
    requires forall k :: i < k < |os| && os[k].Gives? ==> name !in os[k].values
    ensures name in Merged(os) && Merged(os)[name] == os[i].values[name]
    decreases |os|
  {
    if i < |os| - 1 {
      LastValueWins(os[..|os| - 1], i, name);
    }
  }

  // ----- bulk resolvers -----

  lemma {:induction false} GatherIsMerged(r: Resolver, n: nat)
    requires r.Bulk? && n <= |r.parts| && NoneRaises(Outcomes(r.parts)[..n])
    ensures Gather(r, n, Gives(map[], [])) == Gives(Merged(Outcomes(r.parts)[..n]), Errors(Outcomes(r.parts)[..n]))
    decreases n
  {
    var os := Outcomes(r.parts);
    if n > 0 {
      assert os[..n][..n - 1] == os[..n - 1];
      GatherIsMerged(r, n - 1);
    }
  }

  /**
   A bulk resolver returns all the errors of its parts, and asks for the values to be validated together
   only when no part has any; it then has errors exactly when this validation has.
   */
  lemma BulkReportsPartsFirst(r: Resolver)
    requires r.Bulk? && NoneRaises(Outcomes(r.parts))
    ensures var os := Outcomes(r.parts);
            if Errors(os) != [] || r.kind.PlainForm? then Resolve(r) == Gives(Merged(os), Errors(os))
            else
              var validated := r.validate(Merged(os));
              if validated.Raises? || validated.errors == [] || r.kind.GroupedForm? then Resolve(r) == validated
              else Resolve(r) == Gives(Merged(os), validated.errors)
  {
    var os := Outcomes(r.parts);
    assert os[..|os|] == os;
    GatherIsMerged(r, |r.parts|);
  }
}
