/** Embedding provider routing: which provider serves a request, and the route `embed` records afterwards. */
module EmbeddingRouting {
  import opened Options
  import opened Sequences
  import opened StableSort
  import opened Text

  /** maxInputs is absent when None; dimensions 0 and an empty model ask for nothing. */
  datatype Spec = Spec(
    name: string, models: seq<string>, defaultModel: string, priority: int, dimensions: int, maxInputs: Option<int>)

  /** provider is the text of the request's `provider` metadata, empty when there is none. */
  datatype Request = Request(inputs: seq<string>, model: string, dimensions: int, provider: string)

  datatype Route = Route(providerName: string, model: string)

  datatype CallStatus = Completed | Failed

  datatype Call = Call(providerName: string, model: string, inputCount: nat, dimensions: int, status: CallStatus)

  /** What a provider did with a request: it raised, or answered with vectors of some width. */
  datatype Answer = Raised(message: string) | Answered(dimensions: nat, model: string)

  datatype EmbedError = NotFound(key: string) | ProviderFailed(message: string)

  datatype Embedded = Embedded(model: string, provider: string, route: Route)

  /** The configuration routing depends on. */
  datatype Registry = Registry(defaultProvider: string, defaultModel: string, specs: seq<Spec>)

  function Or(a: string, b: string): string {
    if a != "" then a else b
  }

  function OrDimensions(a: int, b: int): int {
    if a != 0 then a else b
  }

  // ----- what a provider supports

  predicate ModelFits(s: Spec, model: string) {
    model == "" || s.models == [] || model in s.models
  }

  predicate InputsFit(s: Spec, inputs: seq<string>) {
    s.maxInputs.Some? ==> |inputs| <= s.maxInputs.value
  }

  predicate DimensionsFit(s: Spec, dimensions: int) {
    dimensions == 0 || s.dimensions == 0 || dimensions == s.dimensions
  }

  /** `EmbeddingProviderSpec.supports` */
  predicate Supports(s: Spec, q: Request) {
    ModelFits(s, Or(q.model, s.defaultModel)) && InputsFit(s, q.inputs) && DimensionsFit(s, q.dimensions)
  }

  // ----- selection

  predicate Before(a: Spec, b: Spec) {
    if a.priority != b.priority then a.priority > b.priority else StrLeq(a.name, b.name)
  }

  function Precedence(): (Spec, Spec) -> bool {
    (a: Spec, b: Spec) => Before(a, b)
  }

  function Supporting(q: Request): Spec -> bool {
    (s: Spec) => Supports(s, q)
  }

  function Named(name: string): Spec -> bool {
    (s: Spec) => s.name == name
  }

  function NotNamed(name: string): Spec -> bool {
    (s: Spec) => s.name != name
  }

  function Head<T>(xs: seq<T>): Option<T> {
    if xs == [] then None else Some(xs[0])
  }

  function Lookup(specs: seq<Spec>, name: string): Option<Spec> {
    Head(Filter(Named(name), specs))
  }

  /** `self._providers[name] = entry`; no reader observes the place of an entry. */
  function Registered(specs: seq<Spec>, s: Spec): seq<Spec> {
    Filter(NotNamed(s.name), specs) + [s]
  }

  function NameOf(): Spec -> string {
    (s: Spec) => s.name
  }

  ghost predicate UniqueNames(specs: seq<Spec>) {
    DistinctBy(NameOf(), specs)
  }

  function Requested(g: Registry, q: Request): string {
    Or(q.provider, g.defaultProvider)
  }

  function Ordered(g: Registry): seq<Spec> {
    Sort(Precedence(), g.specs)
  }

  /** `_select_entry` */
  function SelectEntry(g: Registry, q: Request): Result<Spec, EmbedError> {
    var requested := Requested(g, q);
    if requested != "" then
      var entry := Lookup(g.specs, requested);
      if entry.None? || !Supports(entry.value, q) then Err(NotFound(requested)) else Ok(entry.value)
    else
      var first := Head(Filter(Supporting(q), Ordered(g)));
      if first.None? then Err(NotFound(Or(q.model, "<default>"))) else Ok(first.value)
  }

  function ModelOf(g: Registry, q: Request, e: Spec): string {
    Or(q.model, Or(e.defaultModel, g.defaultModel))
  }

  /** `_route_request` */
  function Routed(g: Registry, q: Request, e: Spec): Request {
    q.(model := ModelOf(g, q, e), dimensions := OrDimensions(q.dimensions, e.dimensions))
  }

  /** `select` */
  function Select(g: Registry, q: Request): Result<Route, EmbedError> {
    match SelectEntry(g, q)
    case Err(error) => Err(error)
    case Ok(e) => Ok(Route(e.name, ModelOf(g, q, e)))
  }

  // ----- the center

  class Center {
    var defaultProvider: string
    var defaultModel: string
    var providers: seq<Spec>
    var calls: seq<Call>

    ghost predicate Valid()
      reads this
    {
      UniqueNames(providers)
    }

    function State(): Registry
      reads this
    {
      Registry(defaultProvider, defaultModel, providers)
    }

    constructor (defaultProvider: string, defaultModel: string)
      ensures Valid() && State() == Registry(defaultProvider, defaultModel, []) && calls == []
    {
      this.defaultProvider := defaultProvider;
      this.defaultModel := defaultModel;
      providers := [];
      calls := [];
    }

    /** Registering needs a name, and replaces an entry of the same name. */
    method Register(s: Spec) returns (ok: bool)
      requires Valid()
      modifies this`providers
      ensures Valid() && ok == (s.name != "")
      ensures !ok ==> providers == old(providers)
      ensures ok ==> forall x :: x in providers <==> x == s || (x in old(providers) && x.name != s.name)
      ensures ok ==> Lookup(providers, s.name) == Some(s)
    {
      ok := s.name != "";
      if ok {
        RegisteredKeepsNames(providers, s);
        providers := Registered(providers, s);
      }
    }

    method FindEntry(q: Request) returns (r: Result<Spec, EmbedError>)
      requires Valid()
      ensures r == SelectEntry(State(), q)
      ensures forall e :: r == Ok(e) <==> Chosen(State(), q, e)
    {
      forall e ensures SelectEntry(State(), q) == Ok(e) <==> Chosen(State(), q, e) {
        ChosenIsSelected(State(), q, e);
      }
      hide Supports, Sort, Chosen;
      var requested := Requested(State(), q);
      if requested != "" {
        var entry := Lookup(providers, requested);
        if entry.None? || !Supports(entry.value, q) {
          return Err(NotFound(requested));
        }
        return Ok(entry.value);
      }
      var ordered := Ordered(State());
      var n := 0;
      while n < |ordered|
        invariant 0 <= n <= |ordered|
        invariant Filter(Supporting(q), ordered) == Filter(Supporting(q), ordered[n..])
      {
        assert ordered[n..][1..] == ordered[n + 1..];
        if Supports(ordered[n], q) {
          return Ok(ordered[n]);
        }
        n := n + 1;
      }
      return Err(NotFound(Or(q.model, "<default>")));
    }

    /**
      `embed`. One call is recorded whenever a provider was reached, before the route is looked up again.
      With sound defaults a successful call is never lost to that second look.
      */
    method Embed(q: Request, provider: (string, Request) -> Answer) returns (r: Result<Embedded, EmbedError>)
      requires Valid()
      modifies this`calls
      ensures Valid()
      ensures forall e :: SelectEntry(State(), q) == Ok(e) <==> Chosen(State(), q, e)
      ensures match SelectEntry(State(), q)
              case Err(error) => r == Err(error) && calls == old(calls)
              case Ok(e) =>
                var routed := Routed(State(), q, e);
                match provider(e.name, routed)
                case Raised(message) =>
                  && r == Err(ProviderFailed(message))
                  && calls == old(calls) + [Call(e.name, routed.model, |q.inputs|, routed.dimensions, Failed)]
                case Answered(dimensions, model) =>
                  && calls == old(calls) + [Call(e.name, routed.model, |q.inputs|, dimensions, Completed)]
                  && (match Select(State(), routed)
                      case Err(error) => r == Err(error)
                      case Ok(route) => r == Ok(Embedded(Or(model, routed.model), e.name, route)))
                  && (r.Ok? <==> ModelFits(e, routed.model) || Rescued(State(), q, e))
                  && (r.Ok? && r.value.route == Route(e.name, routed.model) <==> Stable(State(), q, e))
                  && (SoundDefaults(State()) ==>
                        r == Ok(Embedded(Or(model, routed.model), e.name, Route(e.name, routed.model))))
    {
      hide SelectEntry, Routed, SoundDefaults, ModelOf, ModelFits, Rescued, Stable, Chosen;
      var found := FindEntry(q);
      if found.Err? {
        return Err(found.error);
      }
      var e := found.value;
      var routed := Routed(State(), q, e);
      RoutedMeans(State(), q, e);
      var answer := provider(e.name, routed);
      match answer
      case Raised(message) =>
        var dimensions := OrDimensions(routed.dimensions, e.dimensions);
        calls := calls + [Call(e.name, routed.model, |routed.inputs|, dimensions, Failed)];
        r := Err(ProviderFailed(message));
      case Answered(dimensions, model) =>
        calls := calls + [Call(e.name, routed.model, |routed.inputs|, dimensions, Completed)];
        var route := Select(State(), routed);
        CallIsKeptIff(State(), q, e);
        RecordedRouteIsWrongIff(State(), q, e);
        if SoundDefaults(State()) {
          SoundDefaultsKeepRoutes(State(), q, e);
        }
        if route.Err? {
          return Err(route.error);
        }
        r := Ok(Embedded(Or(model, routed.model), e.name, route.value));
    }
  }

  lemma RoutedMeans(g: Registry, q: Request, e: Spec)
    ensures var r := Routed(g, q, e);
            && r.inputs == q.inputs && r.provider == q.provider
            && r.model == ModelOf(g, q, e)
            && r.dimensions == OrDimensions(q.dimensions, e.dimensions)
            && OrDimensions(r.dimensions, e.dimensions) == r.dimensions
            && ModelOf(g, r, e) == r.model
  {
  }

  lemma RegisteredKeepsNames(specs: seq<Spec>, s: Spec)
    requires UniqueNames(specs)
    ensures UniqueNames(Registered(specs, s))
    ensures forall x :: x in Registered(specs, s) <==> x == s || (x in specs && x.name != s.name)
    ensures Lookup(Registered(specs, s), s.name) == Some(s)
  {
    var kept := Filter(NotNamed(s.name), specs);
    FilterKeepsNames(NotNamed(s.name), specs);
    FilterAppend(Named(s.name), kept, [s]);
    FilterNone(Named(s.name), kept);
    forall i | 0 <= i < |kept| ensures kept[i].name != s.name {
      assert kept[i] in kept;
    }
  }

  lemma FilterKeepsNames(p: Spec -> bool, specs: seq<Spec>)
    requires UniqueNames(specs)
    ensures UniqueNames(Filter(p, specs))
  {
    var differ := (a: Spec, b: Spec) => a.name != b.name;
    FilterSorted(differ, p, specs);
    var kept := Filter(p, specs);
    assert forall i, j :: 0 <= i < j < |kept| ==> differ(kept[i], kept[j]);
  }

  // ----- which entry is selected

  lemma PrecedenceIsTotal()
    ensures TotalPreorder(Precedence())
  {
    StrLeqOrders();
    var leq := Precedence();
    forall x, y ensures leq(x, y) || leq(y, x) {
    }
    forall x, y, z | leq(x, y) && leq(y, z) ensures leq(x, z) {
    }
  }

  lemma SameName(specs: seq<Spec>, a: Spec, b: Spec)
    requires UniqueNames(specs) && a in specs && b in specs && a.name == b.name
    ensures a == b
  {
    var i :| 0 <= i < |specs| && specs[i] == a;
    var j :| 0 <= j < |specs| && specs[j] == b;
    assert !(i < j) && !(j < i);
  }

  lemma SamePlace(specs: seq<Spec>, a: Spec, b: Spec)
    requires UniqueNames(specs) && a in specs && b in specs && Before(a, b) && Before(b, a)
    ensures a == b
  {
    StrLeqAntisymmetric(a.name, b.name);
    SameName(specs, a, b);
  }

  /** No supporting entry stands before e. */
  ghost predicate FirstFor(specs: seq<Spec>, e: Spec, q: Request) {
    e in specs && Supports(e, q) && forall s | s in specs && Supports(s, q) :: Before(e, s)
  }

  lemma FirstSupporting(g: Registry, q: Request, e: Spec)
    requires UniqueNames(g.specs)
    ensures Head(Filter(Supporting(q), Ordered(g))) == Some(e) <==> FirstFor(g.specs, e, q)
  {
    hide Supports, Before;
    var leq, ordered := Precedence(), Filter(Supporting(q), Ordered(g));
    PrecedenceIsTotal();
    SortSorts(leq, g.specs);
    SortMembers(leq, g.specs);
    FilterCommutesWithSort(leq, Supporting(q), g.specs);
    SortSorts(leq, Filter(Supporting(q), g.specs));
    if Head(ordered) == Some(e) {
      assert ordered[0] == e && e in ordered;
      forall s | s in g.specs && Supports(s, q) ensures Before(e, s) {
        assert s in ordered;
        var j :| 0 <= j < |ordered| && ordered[j] == s;
        assert leq(e, e) && (j > 0 ==> leq(ordered[0], ordered[j]));
      }
    }
    if FirstFor(g.specs, e, q) {
      assert e in ordered;
      var first := ordered[0];
      assert first in ordered;
      var j :| 0 <= j < |ordered| && ordered[j] == e;
      assert leq(first, first) && (j > 0 ==> leq(first, ordered[j]));
      SamePlace(g.specs, first, e);
    }
  }

  lemma LookupMeans(specs: seq<Spec>, name: string, e: Spec)
    requires UniqueNames(specs)
    ensures Lookup(specs, name) == Some(e) <==> e in specs && e.name == name
  {
    var named := Filter(Named(name), specs);
    if named != [] {
      assert named[0] in named;
      if e in specs && e.name == name {
        SameName(specs, e, named[0]);
      }
    }
  }

  /**
    Selection, said without the sort: the provider asked for by name, if it supports the request;
    otherwise the supporting provider that precedes every other one.
    */
  lemma SelectedMeans(g: Registry, q: Request, e: Spec)
    requires UniqueNames(g.specs)
    ensures SelectEntry(g, q) == Ok(e) <==>
            if Requested(g, q) != "" then e in g.specs && e.name == Requested(g, q) && Supports(e, q)
            else FirstFor(g.specs, e, q)
    ensures FirstFor(g.specs, e, q) ==>
              forall s | s in g.specs && Supports(s, q) ::
                e.priority >= s.priority && (e.priority == s.priority ==> StrLeq(e.name, s.name))
  {
    hide Supports, Ordered, Requested, Lookup;
    FirstSupporting(g, q, e);
    LookupMeans(g.specs, Requested(g, q), e);
  }

  // ----- what is selected, on the fields of the specs

  /** The model the provider would use is not on its list, the inputs are too many, or the widths differ. */
  ghost predicate Refuses(s: Spec, q: Request) {
    || (exists m :: && m != "" && s.models != [] && m !in s.models
                    && (q.model == m || (q.model == "" && s.defaultModel == m)))
    || (exists n :: s.maxInputs == Some(n) && |q.inputs| > n)
    || (q.dimensions != 0 && s.dimensions != 0 && q.dimensions != s.dimensions)
  }

  lemma SupportsMeans(s: Spec, q: Request)
    ensures Supports(s, q) <==> !Refuses(s, q)
  {
    if s.maxInputs.Some? && |q.inputs| > s.maxInputs.value {
      assert s.maxInputs == Some(s.maxInputs.value);
    }
    var m := Or(q.model, s.defaultModel);
    if !ModelFits(s, m) {
      assert m != "" && s.models != [] && m !in s.models;
    }
  }

  /** A provider that serves a request serves it with fewer inputs; one with a limit serves up to just that many. */
  lemma InputLimit(s: Spec, q: Request, fewer: seq<string>, more: seq<string>)
    requires Supports(s, q)
    ensures |fewer| <= |q.inputs| ==> Supports(s, q.(inputs := fewer))
    ensures forall n :: s.maxInputs == Some(n) ==> (Supports(s, q.(inputs := more)) <==> |more| <= n)
    ensures s.maxInputs.None? ==> Supports(s, q.(inputs := more))
  {
  }

  /** The provider that is asked for, by the request or else by the center. */
  predicate AskedFor(g: Registry, q: Request, name: string) {
    name != "" && (q.provider == name || (q.provider == "" && g.defaultProvider == name))
  }

  /** e does not refuse the request, and is asked for; or none is, and no other one that does not refuse goes first. */
  ghost predicate Chosen(g: Registry, q: Request, e: Spec) {
    && e in g.specs && !Refuses(e, q)
    && if q.provider == "" && g.defaultProvider == "" then
         forall s | s in g.specs && !Refuses(s, q) ::
           e.priority > s.priority || (e.priority == s.priority && StrLeq(e.name, s.name))
       else AskedFor(g, q, e.name)
  }

  lemma ChosenIsSelected(g: Registry, q: Request, e: Spec)
    requires UniqueNames(g.specs)
    ensures SelectEntry(g, q) == Ok(e) <==> Chosen(g, q, e)
  {
    hide SelectEntry, Supports, Refuses, StrLeq, UniqueNames;
    SelectedMeans(g, q, e);
    forall s ensures Supports(s, q) <==> !Refuses(s, q) {
      SupportsMeans(s, q);
    }
  }

  /** The error names the provider asked for, or else the model, and means that no provider is chosen. */
  lemma NoneIsChosen(g: Registry, q: Request)
    requires UniqueNames(g.specs)
    ensures SelectEntry(g, q).Err? <==> forall e :: !Chosen(g, q, e)
    ensures forall key :: SelectEntry(g, q) == Err(NotFound(key)) ==>
              if q.provider == "" && g.defaultProvider == ""
              then key == (if q.model == "" then "<default>" else q.model)
              else AskedFor(g, q, key)
  {
    hide Chosen, Supports, Ordered, Lookup, UniqueNames;
    forall e ensures SelectEntry(g, q) == Ok(e) <==> Chosen(g, q, e) {
      ChosenIsSelected(g, q, e);
    }
    match SelectEntry(g, q)
    case Ok(e) => assert Chosen(g, q, e);
    case Err(_) =>
  }

  // ----- selecting again after routing

  /**
    A provider that could not serve the request through its own default model, yet lists the model that
    another provider's routing filled in.
    */
  predicate Hijacks(h: Spec, q: Request, routed: Request) {
    && q.model == "" && h.defaultModel != "" && h.models != [] && h.defaultModel !in h.models
    && routed.model in h.models && routed.model != ""
    && InputsFit(h, q.inputs) && DimensionsFit(h, routed.dimensions)
  }

  lemma SupportsRouted(g: Registry, q: Request, e: Spec, h: Spec)
    requires Supports(e, q)
    ensures Supports(e, Routed(g, q, e)) <==> ModelFits(e, ModelOf(g, q, e))
    ensures !Supports(h, q) ==> (Supports(h, Routed(g, q, e)) <==> Hijacks(h, q, Routed(g, q, e)))
  {
  }

  /** Some provider that precedes e takes the routed request from it. */
  ghost predicate Overtaken(g: Registry, q: Request, e: Spec) {
    exists h :: h in g.specs && Before(h, e) && Hijacks(h, q, Routed(g, q, e))
  }

  /** The second look at the registry finds the provider that was called. */
  ghost predicate Stable(g: Registry, q: Request, e: Spec) {
    ModelFits(e, ModelOf(g, q, e)) && (Requested(g, q) == "" ==> !Overtaken(g, q, e))
  }

  /**
    Exactly when selecting again finds the provider that was called: the routed model is one it lists,
    and, unless it was asked for by name, no earlier provider takes the routed request.
    */
  lemma RouteIsStableIff(g: Registry, q: Request, e: Spec)
    requires UniqueNames(g.specs) && SelectEntry(g, q) == Ok(e)
    ensures SelectEntry(g, Routed(g, q, e)) == Ok(e) <==> Stable(g, q, e)
  {
    hide Supports, SelectEntry, ModelFits, Hijacks, Before;
    var routed := Routed(g, q, e);
    SelectedMeans(g, q, e);
    SelectedMeans(g, routed, e);
    assert Requested(g, routed) == Requested(g, q);
    SupportsRouted(g, q, e, e);
    if Requested(g, q) == "" && Supports(e, routed) {
      OvertakenMeans(g, q, e);
    }
  }

  /** A provider that lists this model, or lists none, and takes these inputs in this width. */
  predicate Takes(s: Spec, model: string, inputs: seq<string>, dimensions: int) {
    ModelFits(s, model) && InputsFit(s, inputs) && DimensionsFit(s, dimensions)
  }

  /** Some provider takes the routed request in place of e. */
  ghost predicate Rescued(g: Registry, q: Request, e: Spec) {
    && Requested(g, q) == ""
    && exists s :: s in g.specs && Takes(s, ModelOf(g, q, e), q.inputs, OrDimensions(q.dimensions, e.dimensions))
  }

  lemma SupportsNamedModel(s: Spec, q: Request)
    requires q.model != ""
    ensures Supports(s, q) <==> Takes(s, q.model, q.inputs, q.dimensions)
  {
  }

  /** Some entry is selected exactly when the one asked for, or any when none was, supports the request. */
  lemma SomethingSelectedIff(g: Registry, q: Request)
    requires UniqueNames(g.specs)
    ensures SelectEntry(g, q).Ok? <==>
            exists s :: s in g.specs && Supports(s, q) && (Requested(g, q) != "" ==> s.name == Requested(g, q))
  {
    hide Supports, Sort;
    if SelectEntry(g, q).Ok? {
      SelectedMeans(g, q, SelectEntry(g, q).value);
    }
    if s :| s in g.specs && Supports(s, q) && (Requested(g, q) != "" ==> s.name == Requested(g, q)) {
      LookupMeans(g.specs, Requested(g, q), s);
      SortMembers(Precedence(), g.specs);
      assert s in Ordered(g);
      assert Requested(g, q) == "" ==> s in Filter(Supporting(q), Ordered(g));
    }
  }

  /**
    Exactly when an answered call is not lost: the provider lists the routed model, or none was asked for
    by name and some registered provider takes the routed request.
    */
  lemma CallIsKeptIff(g: Registry, q: Request, e: Spec)
    requires UniqueNames(g.specs) && SelectEntry(g, q) == Ok(e)
    ensures Select(g, Routed(g, q, e)).Ok? <==> ModelFits(e, ModelOf(g, q, e)) || Rescued(g, q, e)
  {
    hide Supports, SelectEntry, ModelFits, Takes;
    var routed := Routed(g, q, e);
    RoutedMeans(g, q, e);
    SelectedMeans(g, q, e);
    SomethingSelectedIff(g, routed);
    SupportsRouted(g, q, e, e);
    NoModelFits(e);
    assert Requested(g, routed) == Requested(g, q);
    if routed.model != "" {
      forall s ensures Supports(s, routed) <==> Takes(s, routed.model, q.inputs, routed.dimensions) {
        SupportsNamedModel(s, routed);
      }
      if Requested(g, q) != "" && SelectEntry(g, routed).Ok? {
        var s :| s in g.specs && Supports(s, routed) && s.name == Requested(g, q);
        SameName(g.specs, s, e);
      }
    }
  }

  lemma NoModelFits(s: Spec)
    ensures ModelFits(s, "")
  {
  }

  /**
    Exactly when the recorded route names a provider that was not called: the call is not lost, and the
    second look does not find the provider that was called.
    */
  lemma RecordedRouteIsWrongIff(g: Registry, q: Request, e: Spec)
    requires UniqueNames(g.specs) && SelectEntry(g, q) == Ok(e)
    ensures var route := Select(g, Routed(g, q, e));
            && (route.Ok? && route.value.providerName != e.name <==>
                  !Stable(g, q, e) && (ModelFits(e, ModelOf(g, q, e)) || Rescued(g, q, e)))
            && (route == Ok(Route(e.name, ModelOf(g, q, e))) <==> Stable(g, q, e))
  {
    hide SelectEntry, Stable, ModelFits, Rescued, UniqueNames, ModelOf;
    var routed := Routed(g, q, e);
    RoutedMeans(g, q, e);
    RouteIsStableIff(g, q, e);
    CallIsKeptIff(g, q, e);
    EntryIsRegistered(g, q, e);
    if SelectEntry(g, routed).Ok? {
      var other := SelectEntry(g, routed).value;
      EntryIsRegistered(g, routed, other);
      if other.name == e.name {
        SameName(g.specs, other, e);
      }
    }
  }

  lemma EntryIsRegistered(g: Registry, q: Request, e: Spec)
    requires UniqueNames(g.specs) && SelectEntry(g, q) == Ok(e)
    ensures e in g.specs
  {
    SelectedMeans(g, q, e);
  }

  lemma OvertakenMeans(g: Registry, q: Request, e: Spec)
    requires UniqueNames(g.specs) && FirstFor(g.specs, e, q) && Supports(e, Routed(g, q, e))
    ensures Overtaken(g, q, e) <==> !FirstFor(g.specs, e, Routed(g, q, e))
  {
    hide Supports, Hijacks, Before, Routed;
    var routed := Routed(g, q, e);
    PrecedenceIsTotal();
    var leq := Precedence();
    if h :| h in g.specs && Before(h, e) && Hijacks(h, q, routed) {
      HijackerDoesNotServe(h, q, routed);
      SupportsRouted(g, q, e, h);
      if Before(e, h) {
        SamePlace(g.specs, e, h);
      }
    }
    if s :| s in g.specs && Supports(s, routed) && !Before(e, s) {
      assert leq(e, s) || leq(s, e);
      SupportsRouted(g, q, e, s);
      assert Before(s, e) && Hijacks(s, q, routed);
    }
  }

  lemma HijackerDoesNotServe(h: Spec, q: Request, routed: Request)
    requires Hijacks(h, q, routed)
    ensures !Supports(h, q)
  {
  }

  /** A request that names its model keeps its route whatever is registered. */
  lemma NamedModelsKeepTheirRoute(g: Registry, q: Request, e: Spec)
    requires UniqueNames(g.specs) && SelectEntry(g, q) == Ok(e) && q.model != ""
    ensures SelectEntry(g, Routed(g, q, e)) == Ok(e)
  {
    hide SelectEntry;
    SelectedMeans(g, q, e);
    RouteIsStableIff(g, q, e);
  }

  /** Each provider's default model, or the center's where it has none, is one that the provider lists. */
  ghost predicate SoundDefaults(g: Registry) {
    forall s | s in g.specs :: ModelFits(s, Or(s.defaultModel, g.defaultModel))
  }

  /** With sound defaults every route is stable: the provider that was called is the one that is recorded. */
  lemma SoundDefaultsKeepRoutes(g: Registry, q: Request, e: Spec)
    requires UniqueNames(g.specs) && SoundDefaults(g) && SelectEntry(g, q) == Ok(e)
    ensures SelectEntry(g, Routed(g, q, e)) == Ok(e)
    ensures Select(g, Routed(g, q, e)) == Ok(Route(e.name, ModelOf(g, q, e)))
    ensures Stable(g, q, e)
  {
    hide SelectEntry;
    SelectedMeans(g, q, e);
    RouteIsStableIff(g, q, e);
    RoutedMeans(g, q, e);
    assert e in g.specs && Supports(e, q);
  }

  // ----- unsound defaults

  /** A provider that was called and answered may fail the second look: its center's default is not on its list. */
  lemma AnsweredCallMayBeLost()
    ensures var g := Registry("", "m", [Spec("a", ["n"], "", 0, 0, None)]);
            var q := Request(["text"], "", 0, "");
            && SelectEntry(g, q) == Ok(g.specs[0])
            && SelectEntry(g, Routed(g, q, g.specs[0])) == Err(NotFound("m"))
  {
    var s := Spec("a", ["n"], "", 0, 0, None);
    var g := Registry("", "m", [s]);
    var q := Request(["text"], "", 0, "");
    assert Ordered(g) == [s];
    assert Supports(s, q) && !Supports(s, Routed(g, q, s));
    assert [s][1..] == [];
  }

  /** A recorded route may name a provider that was never called. */
  lemma RecordedRouteMayBeWrong()
    ensures var hijacker := Spec("h", ["small"], "big", 1, 0, None);
            var g := Registry("", "", [hijacker, Spec("a", [], "small", 0, 0, None)]);
            var q := Request(["text"], "", 0, "");
            && SelectEntry(g, q) == Ok(g.specs[1])
            && SelectEntry(g, Routed(g, q, g.specs[1])) == Ok(hijacker)
  {
    var h, s := Spec("h", ["small"], "big", 1, 0, None), Spec("a", [], "small", 0, 0, None);
    var g := Registry("", "", [h, s]);
    var q := Request(["text"], "", 0, "");
    assert UniqueNames(g.specs);
    SelectedMeans(g, q, s);
    SelectedMeans(g, Routed(g, q, s), h);
    StrLeqOrders();
    assert FirstFor(g.specs, s, q);
    assert FirstFor(g.specs, h, Routed(g, q, s));
  }
}
