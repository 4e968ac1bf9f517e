// Wiring a new module instance into a profile (cli/composer.py).
module Composer {
  import opened Document
  import opened Graph
  import opened Resolver
  import opened Text

  datatype Provided = Provided(name: string, kind: string)

  datatype Consume = Consume(name: string, mappedFrom: string, required: bool, kind: Option<string>)

  /** What a module file declares. */
  datatype Definition = Definition(isModule: bool, name: Option<string>, provided: seq<Provided>,
                                   consumed: seq<Consume>)

  /** The module files that can be found and read, by source. */
  type Library = map<string, Definition>

  datatype Instance = Instance(id: Option<string>, source: Option<string>, enabled: bool, dependsOn: seq<string>,
                               config: Fields)

  datatype Profile = Profile(modules: seq<Instance>, secrets: map<string, Value>)

  datatype Setting = Setting(path: string, value: Value)

  datatype Request = Request(
    source: string,
    instanceId: Option<string>,
    enabled: bool,
    dependsOn: seq<string>,
    settings: seq<Setting>,
    bindings: map<string, string>,
    secretNames: map<string, string>)

  /** E121 to E126, and E022 for a module file that cannot be used. */
  datatype Code = E022 | E121 | E122 | E123 | E124 | E125 | E126

  datatype Outcome = Composed(profile: Profile) | Failed(codes: seq<Code>)

  // ---------------------------------------------------------------------------
  // What the profile's modules offer
  // ---------------------------------------------------------------------------

  predicate Usable(m: Instance) {
    m.enabled && m.source.Some?
  }

  /** The contracts one instance offers, by reference. */
  function Offered(id: string, provided: seq<Provided>): map<string, string> {
    if provided == [] then map[]
    else
      var last := provided[|provided| - 1];
      var before := Offered(id, provided[..|provided| - 1]);
      if last.name != "" && last.kind != "" then before[id + "." + last.name := last.kind] else before
  }

  function Providers(modules: seq<Instance>, library: Library): map<string, string> {
    if modules == [] then map[]
    else
      var last := modules[|modules| - 1];
      var before := Providers(modules[..|modules| - 1], library);
      if Usable(last) && last.source.value in library && last.id.Some?
      then before + Offered(last.id.value, library[last.source.value].provided)
      else before
  }

  function LoadErrors(modules: seq<Instance>, library: Library): seq<Code> {
    if modules == [] then []
    else
      var last := modules[|modules| - 1];
      LoadErrors(modules[..|modules| - 1], library) +
        if Usable(last) && last.source.value !in library then [E022] else []
  }

  function Ids(modules: seq<Instance>): set<string> {
    set i | 0 <= i < |modules| && modules[i].id.Some? :: modules[i].id.value
  }

  // ---------------------------------------------------------------------------
  // Settings and bindings
  // ---------------------------------------------------------------------------

  /** Set a nested key, through mappings made where there are none; mappings are updated. */
  function SetNested(config: Fields, parts: seq<string>, value: Value): Fields
    requires parts != []
    decreases |parts|
  {
    var key := parts[0];
    if |parts| == 1 then
      config[key := if value.Map? && key in config && config[key].Map? then Map(config[key].fields + value.fields)
                    else value]
    else
      var inner := if key in config && config[key].Map? then config[key].fields else map[];
      config[key := Map(SetNested(inner, parts[1..], value))]
  }

  function Configured(settings: seq<Setting>): Fields {
    if settings == [] then map[]
    else
      var last := settings[|settings| - 1];
      SetNested(Configured(settings[..|settings| - 1]), SplitOn(last.path, '.'), last.value)
  }

  datatype Choice = Unbound | Bound(ref: string) | Refused(code: Code)

  predicate Fits(c: Consume, ref: string, providers: map<string, string>) {
    ref in providers && c.kind == Some(providers[ref])
  }

  predicate OnlyFit(c: Consume, ref: string, providers: map<string, string>) {
    Fits(c, ref, providers) && forall other :: other in providers && Fits(c, other, providers) ==> other == ref
  }

  /** The bound contract if it is of the right kind, else the only one of that kind. */
  function Choose(c: Consume, bindings: map<string, string>, providers: map<string, string>): Choice {
    if c.name in bindings then
      var ref := bindings[c.name];
      if ParseContractRef(ref).None? || !Fits(c, ref, providers) then Refused(E124) else Bound(ref)
    else if exists ref :: ref in providers && OnlyFit(c, ref, providers) then
      var ref :| ref in providers && OnlyFit(c, ref, providers);
      Bound(ref)
    else if !c.required && !(exists ref :: ref in providers && Fits(c, ref, providers)) then Unbound
    else Refused(E125)
  }

  predicate IsMapped(c: Consume) {
    c.name != "" && c.mappedFrom != ""
  }

  const CONFIG := "spec.config."

  /** The place in the configuration a consumed contract is mapped from. */
  function Place(c: Consume): seq<string> {
    SplitOn(if CONFIG <= c.mappedFrom then c.mappedFrom[|CONFIG|..] else c.mappedFrom, '.')
  }

  datatype Wiring = Wiring(config: Fields, dependsOn: seq<string>, codes: seq<Code>)

  function Reference(ref: string): Value {
    Map(map["contractRef" := Str(ref)])
  }

  function AddOnce(s: seq<string>, x: string): seq<string> {
    if x in s then s else s + [x]
  }

  function WireOne(w: Wiring, c: Consume, bindings: map<string, string>, providers: map<string, string>): Wiring {
    if !IsMapped(c) then w
    else
      match Choose(c, bindings, providers)
      case Unbound => w
      case Refused(code) => w.(codes := w.codes + [code])
      case Bound(ref) => Wiring(SetNested(w.config, Place(c), Reference(ref)), AddOnce(w.dependsOn, ProviderOf(ref)),
                                w.codes)
  }

  function Wire(
    w: Wiring, consumed: seq<Consume>, bindings: map<string, string>, providers: map<string, string>): Wiring
  {
    if consumed == [] then w
    else WireOne(Wire(w, consumed[..|consumed| - 1], bindings, providers), consumed[|consumed| - 1], bindings,
                 providers)
  }

  // ---------------------------------------------------------------------------
  // Secrets
  // ---------------------------------------------------------------------------

  const SECRETS := "secrets."

  /** The secret aliases a value refers to. */
  function Aliases(v: Value): set<string> {
    match v
    case Map(fields) => set k, alias | k in fields && alias in Aliases(fields[k]) :: alias
    case List(items) => set i, alias | 0 <= i < |items| && alias in Aliases(items[i]) :: alias
    case Str(s) => if SECRETS <= s && |s| > |SECRETS| then {s[|SECRETS|..]} else {}
    case _ => {}
  }

  function SecretEntry(name: string): Value {
    Map(map["env" := Str(name), "required" := Bool(true)])
  }

  predicate IsNamed(alias: string, names: map<string, string>) {
    alias in names && names[alias] != ""
  }

  function Unnamed(aliases: set<string>, secrets: map<string, Value>, names: map<string, string>): set<string> {
    set alias | alias in aliases && alias !in secrets && !IsNamed(alias, names)
  }

  function WithSecrets(
    aliases: set<string>, secrets: map<string, Value>, names: map<string, string>): map<string, Value>
  {
    secrets + map alias | alias in aliases && alias !in secrets && IsNamed(alias, names) :: SecretEntry(names[alias])
  }

  // ---------------------------------------------------------------------------
  // Composing
  // ---------------------------------------------------------------------------

  function Times(n: nat, code: Code): seq<Code> {
    seq(n, i => code)
  }

  function Once(s: seq<string>): seq<string> {
    if s == [] then [] else AddOnce(Once(s[..|s| - 1]), s[|s| - 1])
  }

  /** The caller's id if it gives one, else the module's own name. */
  function NewId(request: Request, d: Definition): Option<string> {
    if request.instanceId.Some? && request.instanceId.value != "" then request.instanceId else d.name
  }

  function Compose(p: Profile, library: Library, request: Request): Outcome {
    if request.source !in library then Failed([E022])
    else if !library[request.source].isModule then Failed([E121])
    else if LoadErrors(p.modules, library) != [] then Failed(LoadErrors(p.modules, library))
    else
      var d := library[request.source];
      var id := NewId(request, d);
      if id.None? || Strip(id.value) == "" then Failed([E122])
      else if id.value in Ids(p.modules) then Failed([E123])
      else
        var w := Wire(Wiring(Configured(request.settings), request.dependsOn, []), d.consumed, request.bindings,
                      Providers(p.modules, library));
        if w.codes != [] then Failed(w.codes)
        else
          var aliases := Aliases(Map(w.config));
          if Unnamed(aliases, p.secrets, request.secretNames) != {} then
            Failed(Times(|Unnamed(aliases, p.secrets, request.secretNames)|, E126))
          else
            Composed(Profile(p.modules +
                             [Instance(id, Some(request.source), request.enabled, Once(w.dependsOn), w.config)],
                             WithSecrets(aliases, p.secrets, request.secretNames)))
  }

  /** The instance under construction. */
  class Draft {
    var config: Fields
    var dependsOn: seq<string>
    var codes: seq<Code>

    constructor (dependsOn: seq<string>)
      ensures config == map[] && this.dependsOn == dependsOn && codes == []
    {
      config, this.dependsOn, codes := map[], dependsOn, [];
    }

    method ApplySettings(settings: seq<Setting>)
      requires config == map[]
      modifies this
      ensures config == Configured(settings)
      ensures dependsOn == old(dependsOn) && codes == old(codes)
    {
      for i := 0 to |settings|
        invariant config == Configured(settings[..i])
        invariant dependsOn == old(dependsOn) && codes == old(codes)
      {
        assert settings[..i + 1][..i] == settings[..i];
        config := SetNested(config, SplitOn(settings[i].path, '.'), settings[i].value);
      }
      assert settings[..|settings|] == settings;
    }

    method WireConsumed(consumed: seq<Consume>, bindings: map<string, string>, providers: map<string, string>)
      modifies this
      ensures Wiring(config, dependsOn, codes) ==
              Wire(old(Wiring(config, dependsOn, codes)), consumed, bindings, providers)
    {
      for i := 0 to |consumed|
        invariant Wiring(config, dependsOn, codes) ==
                  Wire(old(Wiring(config, dependsOn, codes)), consumed[..i], bindings, providers)
      {
        assert consumed[..i + 1][..i] == consumed[..i];
        var c := consumed[i];
        if IsMapped(c) {
          match Choose(c, bindings, providers)
          case Unbound =>
          case Refused(code) => codes := codes + [code];
          case Bound(ref) =>
            if ProviderOf(ref) !in dependsOn {
              dependsOn := dependsOn + [ProviderOf(ref)];
            }
            config := SetNested(config, Place(c), Reference(ref));
        }
      }
      assert consumed[..|consumed|] == consumed;
    }
  }

  method CollectProvided(modules: seq<Instance>, library: Library)
    returns (providers: map<string, string>, codes: seq<Code>)
    ensures providers == Providers(modules, library) && codes == LoadErrors(modules, library)
  {
    providers, codes := map[], [];
    for i := 0 to |modules|
      invariant providers == Providers(modules[..i], library) && codes == LoadErrors(modules[..i], library)
    {
      assert modules[..i + 1][..i] == modules[..i];
      var m := modules[i];
      if Usable(m) {
        if m.source.value !in library {
          codes := codes + [E022];
        } else if m.id.Some? {
          providers := providers + Offered(m.id.value, library[m.source.value].provided);
        }
      }
    }
    assert modules[..|modules|] == modules;
  }

  lemma OneMoreDefined(done: set<string>, alias: string, secrets: map<string, Value>, names: map<string, string>)
    ensures WithSecrets(done + {alias}, secrets, names) ==
            if alias !in secrets && IsNamed(alias, names)
            then WithSecrets(done, secrets, names)[alias := SecretEntry(names[alias])]
            else WithSecrets(done, secrets, names)
  {
  }

  lemma OneMoreUnnamed(done: set<string>, alias: string, secrets: map<string, Value>, names: map<string, string>)
    requires alias !in done
    ensures |Unnamed(done + {alias}, secrets, names)| ==
            |Unnamed(done, secrets, names)| + if alias !in secrets && !IsNamed(alias, names) then 1 else 0
  {
    if alias !in secrets && !IsNamed(alias, names) {
      assert Unnamed(done + {alias}, secrets, names) == Unnamed(done, secrets, names) + {alias};
    } else {
      assert Unnamed(done + {alias}, secrets, names) == Unnamed(done, secrets, names);
    }
  }

  method DefineSecrets(aliases: set<string>, secrets: map<string, Value>, names: map<string, string>)
    returns (defined: map<string, Value>, codes: seq<Code>)
    ensures codes == Times(|Unnamed(aliases, secrets, names)|, E126)
    ensures defined == WithSecrets(aliases, secrets, names)
  {
    defined, codes := secrets, [];
    var todo := aliases;
    while todo != {}
      invariant todo <= aliases
      invariant defined == WithSecrets(aliases - todo, secrets, names)
      invariant codes == Times(|Unnamed(aliases - todo, secrets, names)|, E126)
      decreases todo
    {
      var alias :| alias in todo;
      OneMoreDefined(aliases - todo, alias, secrets, names);
      OneMoreUnnamed(aliases - todo, alias, secrets, names);
      assert aliases - (todo - {alias}) == (aliases - todo) + {alias};
      todo := todo - {alias};
      if alias !in secrets {
        if IsNamed(alias, names) {
          defined := defined[alias := SecretEntry(names[alias])];
        } else {
          codes := codes + [E126];
        }
      }
    }
    assert aliases - todo == aliases;
  }

  method ComposeProfile(p: Profile, library: Library, request: Request) returns (outcome: Outcome)
    ensures outcome == Compose(p, library, request)
  {
    if request.source !in library {
      return Failed([E022]);
    }
    var d := library[request.source];
    if !d.isModule {
      return Failed([E121]);
    }
    var providers, codes := CollectProvided(p.modules, library);
    if codes != [] {
      return Failed(codes);
    }
    var id := NewId(request, d);
    if id.None? || Strip(id.value) == "" {
      return Failed([E122]);
    }
    if id.value in Ids(p.modules) {
      return Failed([E123]);
    }
    var draft := new Draft(request.dependsOn);
    draft.ApplySettings(request.settings);
    draft.WireConsumed(d.consumed, request.bindings, providers);
    if draft.codes != [] {
      return Failed(draft.codes);
    }
    var secrets, missing := DefineSecrets(Aliases(Map(draft.config)), p.secrets, request.secretNames);
    if missing != [] {
      return Failed(missing);
    }
    var instance := Instance(id, Some(request.source), request.enabled, Once(draft.dependsOn), draft.config);
    return Composed(Profile(p.modules + [instance], secrets));
  }

  // ---------------------------------------------------------------------------
  // Offers and choices, in terms of what is declared
  // ---------------------------------------------------------------------------

  predicate OffersIn(id: string, provided: seq<Provided>, j: int, ref: string) {
    0 <= j < |provided| && provided[j].name != "" && provided[j].kind != "" && ref == id + "." + provided[j].name
  }

  /** The `j`-th contract of the module file behind the `i`-th instance, offered under this reference. */
  predicate Offers(modules: seq<Instance>, library: Library, i: int, j: int, ref: string) {
    && 0 <= i < |modules| && modules[i].enabled && modules[i].id.Some?
    && modules[i].source.Some? && modules[i].source.value in library
    && OffersIn(modules[i].id.value, library[modules[i].source.value].provided, j, ref)
  }

  lemma {:induction false} OfferedIff(id: string, provided: seq<Provided>, ref: string)
    ensures ref in Offered(id, provided) <==> exists j :: OffersIn(id, provided, j, ref)
    ensures forall j :: OffersIn(id, provided, j, ref) && (forall k :: j < k ==> !OffersIn(id, provided, k, ref)) ==>
              Offered(id, provided)[ref] == provided[j].kind
  {
    if provided == [] {
    } else {
      var init, n := provided[..|provided| - 1], |provided| - 1;
      OfferedIff(id, init, ref);
      assert forall j :: OffersIn(id, init, j, ref) <==> OffersIn(id, provided, j, ref) && j != n;
      assert provided[n].name != "" && provided[n].kind != "" && ref == id + "." + provided[n].name <==>
             OffersIn(id, provided, n, ref);
    }
  }

  /** On offer is exactly what enabled modules provide whose file can be read. */
  lemma {:induction false} ProvidersIff(modules: seq<Instance>, library: Library, ref: string)
    ensures ref in Providers(modules, library) <==> exists i, j :: Offers(modules, library, i, j, ref)
  {
    if modules == [] {
    } else {
      var init, last, n := modules[..|modules| - 1], modules[|modules| - 1], |modules| - 1;
      ProvidersIff(init, library, ref);
      assert forall i, j :: Offers(init, library, i, j, ref) <==> Offers(modules, library, i, j, ref) && i != n;
      if Usable(last) && last.source.value in library && last.id.Some? {
        OfferedIff(last.id.value, library[last.source.value].provided, ref);
        assert forall j :: OffersIn(last.id.value, library[last.source.value].provided, j, ref) <==>
                           Offers(modules, library, n, j, ref);
      }
    }
  }

  ghost predicate NoneLater(modules: seq<Instance>, library: Library, i: int, j: int, ref: string) {
    forall i', j' :: Offers(modules, library, i', j', ref) ==> i' < i || (i' == i && j' <= j)
  }

  /** Of several offers under one reference the last one says its kind. */
  lemma {:induction false} OfferedKind(modules: seq<Instance>, library: Library, i: int, j: int, ref: string)
    requires Offers(modules, library, i, j, ref) && NoneLater(modules, library, i, j, ref)
    ensures ref in Providers(modules, library)
    ensures Providers(modules, library)[ref] == library[modules[i].source.value].provided[j].kind
    decreases |modules|
  {
    var init, last, n := modules[..|modules| - 1], modules[|modules| - 1], |modules| - 1;
    ProvidersIff(modules, library, ref);
    if i == n {
      var provided := library[last.source.value].provided;
      OfferedIff(last.id.value, provided, ref);
      forall k | j < k ensures !OffersIn(last.id.value, provided, k, ref) {
        assert !Offers(modules, library, n, k, ref);
      }
    } else {
      assert forall i', j' :: Offers(init, library, i', j', ref) <==> Offers(modules, library, i', j', ref) && i' != n;
      OfferedKind(init, library, i, j, ref);
      if Usable(last) && last.source.value in library && last.id.Some? {
        OfferedIff(last.id.value, library[last.source.value].provided, ref);
        assert forall k :: OffersIn(last.id.value, library[last.source.value].provided, k, ref) ==>
                           Offers(modules, library, n, k, ref);
      }
    }
  }

  /** There is nothing but E022, and none exactly when every enabled instance names a file that can be used. */
  lemma {:induction false} LoadErrorsIff(modules: seq<Instance>, library: Library)
    ensures LoadErrors(modules, library) == [] <==>
            forall m :: m in modules && m.enabled && m.source.Some? ==> m.source.value in library
    ensures forall code :: code in LoadErrors(modules, library) ==> code == E022
  {
    if modules == [] {
    } else {
      var init, last := modules[..|modules| - 1], modules[|modules| - 1];
      LoadErrorsIff(init, library);
      assert forall m :: m in modules <==> m in init || m == last;
    }
  }

  /** Bound is what the caller binds, if it is on offer and of the right kind, or else the only offer of that kind. */
  lemma ChooseIff(c: Consume, bindings: map<string, string>, providers: map<string, string>, ref: string)
    ensures Choose(c, bindings, providers) == Bound(ref) <==>
            && ref in providers && c.kind == Some(providers[ref])
            && if c.name in bindings then ref == bindings[c.name] && ParseContractRef(ref).Some?
               else forall other :: other in providers && c.kind == Some(providers[other]) ==> other == ref
    ensures Choose(c, bindings, providers) == Unbound <==>
            && c.name !in bindings && !c.required
            && forall other :: other in providers ==> c.kind != Some(providers[other])
    ensures Choose(c, bindings, providers).Refused? ==>
              Choose(c, bindings, providers).code == if c.name in bindings then E124 else E125
  {
    if c.name !in bindings {
      if other :| other in providers && c.kind == Some(providers[other]) { assert Fits(c, other, providers); }
      if ref in providers && c.kind == Some(providers[ref]) {
        if forall other :: other in providers && c.kind == Some(providers[other]) ==> other == ref {
          assert OnlyFit(c, ref, providers);
        }
      }
    }
  }

  /** A consumed contract is placed where it is mapped from, less the prefix of configurations. */
  lemma {:induction false} PlaceIs(c: Consume, path: string)
    ensures c.mappedFrom == "spec.config." + path ==> Place(c) == SplitOn(path, '.')
    ensures !("spec.config." <= c.mappedFrom) ==> Place(c) == SplitOn(c.mappedFrom, '.')
  {
    assert ("spec.config." + path)[|CONFIG|..] == path;
  }

  /** A text somewhere in a value. */
  predicate Mentions(v: Value, s: string) {
    match v
    case Str(t) => t == s
    case Map(fields) => exists k :: k in fields && Mentions(fields[k], s)
    case List(items) => exists i :: 0 <= i < |items| && Mentions(items[i], s)
    case _ => false
  }

  /** An alias is used exactly where a text refers to it. */
  lemma {:induction false} AliasIff(v: Value, alias: string)
    ensures alias in Aliases(v) <==> alias != "" && Mentions(v, "secrets." + alias)
  {
    match v
    case Map(fields) =>
      forall k | k in fields
        ensures alias in Aliases(fields[k]) <==> alias != "" && Mentions(fields[k], "secrets." + alias)
      {
        AliasIff(fields[k], alias);
      }
    case List(items) =>
      forall i | 0 <= i < |items|
        ensures alias in Aliases(items[i]) <==> alias != "" && Mentions(items[i], "secrets." + alias)
      {
        AliasIff(items[i], alias);
      }
    case Str(s) =>
      assert ("secrets." + alias)[8..] == alias;
      assert SECRETS <= s ==> s == SECRETS + s[8..];
    case _ =>
  }

  // ---------------------------------------------------------------------------
  // What a nested setting changes
  // ---------------------------------------------------------------------------

  function UpdatedWith(existing: Option<Value>, value: Value): Value {
    if value.Map? && existing.Some? && existing.value.Map? then Map(existing.value.fields + value.fields) else value
  }

  lemma {:induction false} SetNestedAt(config: Fields, parts: seq<string>, value: Value)
    requires parts != []
    ensures At(Map(SetNested(config, parts, value)), parts) == Some(UpdatedWith(At(Map(config), parts), value))
    decreases |parts|
  {
    if |parts| > 1 {
      var inner := if parts[0] in config && config[parts[0]].Map? then config[parts[0]].fields else map[];
      SetNestedAt(inner, parts[1..], value);
    }
  }

  /** Places that neither lie above nor below each other. */
  predicate Apart(p: seq<string>, q: seq<string>) {
    !(p <= q) && !(q <= p)
  }

  /** A setting reaches a place unless they lie apart, or it adds other keys to a mapping around it. */
  predicate Reaches(parts: seq<string>, value: Value, q: seq<string>) {
    !Apart(parts, q) && !(parts < q && value.Map? && q[|parts|] !in value.fields)
  }

  /** What a setting does not reach it leaves as it was. */
  lemma {:induction false} SetNestedUnreached(config: Fields, parts: seq<string>, value: Value, q: seq<string>)
    requires parts != [] && !Reaches(parts, value, q)
    ensures At(Map(SetNested(config, parts, value)), q) == At(Map(config), q)
    decreases |parts|
  {
    assert q == [q[0]] + q[1..] && parts == [parts[0]] + parts[1..];
    if q[0] == parts[0] && |parts| > 1 {
      assert Apart(parts, q) <==> Apart(parts[1..], q[1..]);
      assert parts < q <==> parts[1..] < q[1..];
      var inner := if parts[0] in config && config[parts[0]].Map? then config[parts[0]].fields else map[];
      SetNestedUnreached(inner, parts[1..], value, q[1..]);
    }
  }

  lemma {:induction false} SetNestedElsewhere(config: Fields, parts: seq<string>, value: Value, q: seq<string>)
    requires parts != [] && Apart(parts, q)
    ensures At(Map(SetNested(config, parts, value)), q) == At(Map(config), q)
  {
    SetNestedUnreached(config, parts, value, q);
  }

  // ---------------------------------------------------------------------------
  // Bound contracts
  // ---------------------------------------------------------------------------

  predicate IsBound(c: Consume, bindings: map<string, string>, providers: map<string, string>) {
    IsMapped(c) && Choose(c, bindings, providers).Bound?
  }

  /** Consumed contracts are mapped to places that do not overlap. */
  predicate PlacesApart(consumed: seq<Consume>) {
    forall i, j :: 0 <= i < j < |consumed| && IsMapped(consumed[i]) && IsMapped(consumed[j]) ==>
      Apart(Place(consumed[i]), Place(consumed[j]))
  }

  /** Where the reference of a consumed contract is written. */
  function RefPath(c: Consume): seq<string> {
    Place(c) + ["contractRef"]
  }

  /** The configuration refers to `ref` at the place of `c`. */
  predicate RefersTo(config: Fields, c: Consume, ref: string) {
    At(Map(config), RefPath(c)) == Some(Str(ref))
  }

  /** What binding one contract leaves at any path. */
  ghost predicate ReferenceSet(
    before: Option<Value>, after: Option<Value>, path: seq<string>, ref: string, q: seq<string>)
  {
    && (q == path ==> after == Some(Str(ref)))
    && (q < path ==> after.Some? && after.value.Map?)
    && (path < q ==> after == None)
    && (Apart(path, q) ==> after == before)
  }

  lemma {:induction false} SetReference(config: Fields, place: seq<string>, ref: string, q: seq<string>)
    requires place != [] && q != []
    ensures ReferenceSet(At(Map(config), q), At(Map(SetNested(config, place, Reference(ref))), q),
                         place + ["contractRef"], ref, q)
    decreases |place|
  {
    var key, path := place[0], place + ["contractRef"];
    assert path == [key] + path[1..] && q == [q[0]] + q[1..];
    if q[0] == key {
      assert q < path <==> q[1..] < path[1..];
      assert Apart(path, q) <==> Apart(path[1..], q[1..]);
      if |place| == 1 {
        ReferenceAtKey(if key in config then config[key] else Null, ref, q[1..]);
      } else if |q| > 1 {
        var inner := if key in config && config[key].Map? then config[key].fields else map[];
        assert path[1..] == place[1..] + ["contractRef"];
        SetReference(inner, place[1..], ref, q[1..]);
      }
    }
  }

  /** At the place itself the reference joins a mapping that is there, and replaces anything else. */
  lemma ReferenceAtKey(existing: Value, ref: string, q: seq<string>)
    ensures var after := if existing.Map? then Map(existing.fields + Reference(ref).fields) else Reference(ref);
            && (q == ["contractRef"] ==> At(after, q) == Some(Str(ref)))
            && (q == [] ==> At(after, q) == Some(after))
            && (["contractRef"] < q ==> At(after, q) == None)
            && (Apart(["contractRef"], q) ==> At(after, q) == At(existing, q))
  {
    if q != [] { assert q == [q[0]] + q[1..]; }
  }

  /** The last bound contract whose reference lies at, above or below a path. */
  function LastTouching(
    consumed: seq<Consume>, bindings: map<string, string>, providers: map<string, string>,
    q: seq<string>): (k: Option<nat>)
    ensures k.Some? ==> k.value < |consumed| && IsBound(consumed[k.value], bindings, providers)
  {
    if consumed == [] then None
    else
      var last := consumed[|consumed| - 1];
      if IsBound(last, bindings, providers) && !Apart(RefPath(last), q) then Some(|consumed| - 1)
      else LastTouching(consumed[..|consumed| - 1], bindings, providers, q)
  }

  /** After wiring a path is as the last contract touching it left it. */
  lemma {:induction false} WiredReference(
    w: Wiring, consumed: seq<Consume>, bindings: map<string, string>, providers: map<string, string>, q: seq<string>)
    requires q != []
    ensures match LastTouching(consumed, bindings, providers, q)
            case None => At(Map(Wire(w, consumed, bindings, providers).config), q) == At(Map(w.config), q)
            case Some(k) => LeftBy(At(Map(Wire(w, consumed, bindings, providers).config), q), RefPath(consumed[k]),
                                   Choose(consumed[k], bindings, providers).ref, q)
  {
    if consumed == [] {
    } else {
      var init, last := consumed[..|consumed| - 1], consumed[|consumed| - 1];
      WiredReference(w, init, bindings, providers, q);
      OneMoreReference(Wire(w, init, bindings, providers), last, bindings, providers, q);
    }
  }

  lemma {:induction false} OneMoreReference(
    w: Wiring, c: Consume, bindings: map<string, string>, providers: map<string, string>, q: seq<string>)
    requires q != []
    ensures var after := At(Map(WireOne(w, c, bindings, providers).config), q);
            if IsBound(c, bindings, providers) && !Apart(RefPath(c), q)
            then LeftBy(after, RefPath(c), Choose(c, bindings, providers).ref, q)
            else after == At(Map(w.config), q)
  {
    if IsBound(c, bindings, providers) {
      var ref := Choose(c, bindings, providers).ref;
      SetReference(w.config, Place(c), ref, q);
      SetLeaves(At(Map(w.config), q), At(Map(SetNested(w.config, Place(c), Reference(ref))), q), RefPath(c), ref, q);
    }
  }

  /** A path holds a text exactly if it is that of the reference last written around it. */
  ghost predicate LeftBy(after: Option<Value>, path: seq<string>, ref: string, q: seq<string>) {
    forall s :: after == Some(Str(s)) <==> path == q && s == ref
  }

  lemma SetLeaves(before: Option<Value>, after: Option<Value>, path: seq<string>, ref: string, q: seq<string>)
    requires ReferenceSet(before, after, path, ref, q)
    ensures if Apart(path, q) then after == before else LeftBy(after, path, ref, q)
  {
  }

  lemma {:induction false} TouchedAfter(
    consumed: seq<Consume>, bindings: map<string, string>, providers: map<string, string>, i: nat)
    requires i < |consumed| && IsBound(consumed[i], bindings, providers)
    ensures var k := LastTouching(consumed, bindings, providers, RefPath(consumed[i]));
            k.Some? && i <= k.value && !Apart(RefPath(consumed[k.value]), RefPath(consumed[i]))
  {
    var init := consumed[..|consumed| - 1];
    if i < |init| {
      assert init[i] == consumed[i];
      if LastTouching(consumed, bindings, providers, RefPath(consumed[i])) != Some(|init|) {
        TouchedAfter(init, bindings, providers, i);
      }
    }
  }

  /** The last contract bound at, above or below this place is bound at this very place, to the same offer. */
  predicate NotOverwritten(
    consumed: seq<Consume>, bindings: map<string, string>, providers: map<string, string>, i: nat)
    requires i < |consumed| && IsBound(consumed[i], bindings, providers)
  {
    var k := LastTouching(consumed, bindings, providers, RefPath(consumed[i]));
    && k.Some? && Place(consumed[k.value]) == Place(consumed[i])
    && Choose(consumed[k.value], bindings, providers) == Choose(consumed[i], bindings, providers)
  }

  lemma {:induction false} BoundIsReferredToIff(
    w: Wiring, consumed: seq<Consume>, bindings: map<string, string>, providers: map<string, string>, i: nat)
    requires i < |consumed| && IsBound(consumed[i], bindings, providers)
    ensures RefersTo(Wire(w, consumed, bindings, providers).config, consumed[i],
                     Choose(consumed[i], bindings, providers).ref)
       <==> NotOverwritten(consumed, bindings, providers, i)
    ensures PlacesApart(consumed) ==> NotOverwritten(consumed, bindings, providers, i)
  {
    var q := RefPath(consumed[i]);
    WiredReference(w, consumed, bindings, providers, q);
    TouchedAfter(consumed, bindings, providers, i);
    var k := LastTouching(consumed, bindings, providers, q).value;
    SamePathSamePlace(Place(consumed[k]), Place(consumed[i]));
    if PlacesApart(consumed) && k != i {
      LongerStayApart(Place(consumed[i]), Place(consumed[k]));
    }
  }

  /** Of two contracts bound to different offers at one place, the configuration refers to the later. */
  lemma {:induction false} SamePlaceOverwritten(
    w: Wiring, c: Consume, d: Consume, bindings: map<string, string>, providers: map<string, string>)
    requires IsBound(c, bindings, providers) && IsBound(d, bindings, providers) && Place(c) == Place(d)
    requires Choose(c, bindings, providers) != Choose(d, bindings, providers)
    ensures !NotOverwritten([c, d], bindings, providers, 0)
    ensures var config := Wire(w, [c, d], bindings, providers).config;
            && !RefersTo(config, c, Choose(c, bindings, providers).ref)
            && RefersTo(config, d, Choose(d, bindings, providers).ref)
  {
    assert LastTouching([c, d], bindings, providers, RefPath(c)) == Some(1);
    BoundIsReferredToIff(w, [c, d], bindings, providers, 0);
    BoundIsReferredToIff(w, [c, d], bindings, providers, 1);
  }

  lemma SamePathSamePlace(p: seq<string>, q: seq<string>)
    ensures p + ["contractRef"] == q + ["contractRef"] <==> p == q
  {
    if p + ["contractRef"] == q + ["contractRef"] {
      assert |p| == |q| && (p + ["contractRef"])[..|p|] == p && (q + ["contractRef"])[..|q|] == q;
    }
  }

  lemma LongerStayApart(p: seq<string>, q: seq<string>)
    requires Apart(p, q)
    ensures Apart(q + ["contractRef"], p + ["contractRef"])
  {
    var i :| 0 <= i < |p| && i < |q| && p[i] != q[i] by { FirstDifference(p, q); }
    assert (p + ["contractRef"])[i] == p[i] && (q + ["contractRef"])[i] == q[i];
  }

  lemma {:induction false} FirstDifference(p: seq<string>, q: seq<string>)
    requires Apart(p, q)
    ensures exists i :: 0 <= i < |p| && i < |q| && p[i] != q[i]
  {
    if p[0] == q[0] {
      assert p == [p[0]] + p[1..] && q == [q[0]] + q[1..];
      FirstDifference(p[1..], q[1..]);
      var i :| 0 <= i < |p[1..]| && i < |q[1..]| && p[1..][i] != q[1..][i];
      assert p[i + 1] != q[i + 1];
    }
  }

  /** Nothing was refused: what is required is bound, to a contract of its kind. */
  lemma {:induction false} NothingRefused(
    w: Wiring, consumed: seq<Consume>, bindings: map<string, string>, providers: map<string, string>)
    ensures w.codes <= Wire(w, consumed, bindings, providers).codes
    ensures Wire(w, consumed, bindings, providers).codes == [] <==>
            w.codes == [] && forall i :: 0 <= i < |consumed| && IsMapped(consumed[i]) ==>
              !Choose(consumed[i], bindings, providers).Refused?
  {
    if consumed == [] {
    } else {
      var init, last := consumed[..|consumed| - 1], consumed[|consumed| - 1];
      NothingRefused(w, init, bindings, providers);
      assert forall i :: 0 <= i < |init| ==> init[i] == consumed[i];
      assert last == consumed[|init|];
    }
  }

  lemma ChoiceFits(c: Consume, bindings: map<string, string>, providers: map<string, string>)
    ensures Choose(c, bindings, providers).Bound? ==>
              Choose(c, bindings, providers).ref in providers &&
                Some(providers[Choose(c, bindings, providers).ref]) == c.kind
    ensures c.required ==> !Choose(c, bindings, providers).Unbound?
    ensures c.name !in bindings && Choose(c, bindings, providers).Bound? ==>
            OnlyFit(c, Choose(c, bindings, providers).ref, providers)
  {
  }

  /** A setting holds, merged into what earlier ones made, unless a later one reaches its place. */
  lemma {:induction false} SettingHolds(settings: seq<Setting>, i: nat)
    requires i < |settings|
    requires forall j :: i < j < |settings| ==>
               !Reaches(SplitOn(settings[j].path, '.'), settings[j].value, SplitOn(settings[i].path, '.'))
    ensures At(Map(Configured(settings)), SplitOn(settings[i].path, '.')) ==
            Some(UpdatedWith(At(Map(Configured(settings[..i])), SplitOn(settings[i].path, '.')), settings[i].value))
  {
    var init, last := settings[..|settings| - 1], settings[|settings| - 1];
    if i < |init| {
      assert init[..i] == settings[..i];
      SettingHolds(init, i);
      SetNestedUnreached(Configured(init), SplitOn(last.path, '.'), last.value, SplitOn(settings[i].path, '.'));
    } else {
      SetNestedAt(Configured(init), SplitOn(last.path, '.'), last.value);
    }
  }

  // ---------------------------------------------------------------------------
  // Dependencies
  // ---------------------------------------------------------------------------

  lemma {:induction false} WiredDependencies(
    w: Wiring, consumed: seq<Consume>, bindings: map<string, string>, providers: map<string, string>, d: string)
    ensures d in Wire(w, consumed, bindings, providers).dependsOn <==>
            || d in w.dependsOn
            || exists i :: 0 <= i < |consumed| && IsBound(consumed[i], bindings, providers) &&
                           ProviderOf(Choose(consumed[i], bindings, providers).ref) == d
  {
    if consumed == [] {
    } else {
      var init, last := consumed[..|consumed| - 1], consumed[|consumed| - 1];
      WiredDependencies(w, init, bindings, providers, d);
      assert forall i :: 0 <= i < |init| ==> init[i] == consumed[i];
      assert last == consumed[|init|];
    }
  }

  lemma {:induction false} OnceKeeps(s: seq<string>)
    ensures forall d :: d in Once(s) <==> d in s
    ensures forall i, j :: 0 <= i < j < |Once(s)| ==> Once(s)[i] != Once(s)[j]
  {
    if s == [] {
    } else {
      OnceKeeps(s[..|s| - 1]);
      assert s == s[..|s| - 1] + [s[|s| - 1]];
    }
  }

  lemma {:induction false} OfferedBy(id: string, provided: seq<Provided>, ref: string)
    requires ref in Offered(id, provided)
    ensures exists name :: ref == id + "." + name
  {
    var last := provided[|provided| - 1];
    if ref in Offered(id, provided[..|provided| - 1]) {
      OfferedBy(id, provided[..|provided| - 1], ref);
    } else {
      assert ref == id + "." + last.name;
    }
  }

  /** The ids of the modules that take part. */
  function EnabledIds(modules: seq<Instance>): set<string> {
    set i | 0 <= i < |modules| && modules[i].enabled && modules[i].id.Some? :: modules[i].id.value
  }

  lemma {:induction false} ProviderIsEnabled(modules: seq<Instance>, library: Library, ref: string)
    requires ref in Providers(modules, library)
    ensures exists id, name :: id in EnabledIds(modules) && ref == id + "." + name
  {
    var init, last := modules[..|modules| - 1], modules[|modules| - 1];
    if ref in Providers(init, library) {
      ProviderIsEnabled(init, library, ref);
      var id, name :| id in EnabledIds(init) && ref == id + "." + name;
      var i :| 0 <= i < |init| && init[i].enabled && init[i].id.Some? && init[i].id.value == id;
      assert modules[i] == init[i];
    } else {
      OfferedBy(last.id.value, library[last.source.value].provided, ref);
      assert modules[|init|] == last;
    }
  }

  function Dependencies(modules: seq<Instance>): map<string, seq<string>> {
    if modules == [] then map[]
    else
      var last := modules[|modules| - 1];
      var before := Dependencies(modules[..|modules| - 1]);
      if last.enabled && last.id.Some? then before[last.id.value := last.dependsOn] else before
  }

  /** The dependency graph of a profile: its enabled modules. */
  function GraphOf(modules: seq<Instance>): Graph {
    Graph(EnabledIds(modules), Dependencies(modules))
  }

  ghost predicate SoundGraph(g: Graph) {
    ReferencesSound(g) && !Cyclic(g)
  }

  lemma {:induction false} DependenciesKeys(modules: seq<Instance>)
    ensures Dependencies(modules).Keys == EnabledIds(modules)
  {
    if modules == [] {
    } else {
      var init := modules[..|modules| - 1];
      DependenciesKeys(init);
      assert forall i :: 0 <= i < |init| ==> init[i] == modules[i];
    }
  }

  lemma {:induction false} GraphWithOneMore(modules: seq<Instance>, m: Instance)
    ensures GraphOf(modules + [m]) ==
            if m.enabled && m.id.Some?
            then Graph(EnabledIds(modules) + {m.id.value}, Dependencies(modules)[m.id.value := m.dependsOn])
            else GraphOf(modules)
  {
    var all := modules + [m];
    assert all[..|modules|] == modules && all[|modules|] == m;
    assert forall i :: 0 <= i < |modules| ==> all[i] == modules[i];
  }

  /** A new module that depends on known modules only leaves the graph sound, and no other does. */
  lemma NewNodeSoundIff(g: Graph, id: string, dependsOn: seq<string>)
    requires SoundGraph(g) && id !in g.ids && g.deps.Keys == g.ids
    ensures SoundGraph(Graph(g.ids + {id}, g.deps[id := dependsOn])) <==> forall d :: d in dependsOn ==> d in g.ids
  {
    var h := Graph(g.ids + {id}, g.deps[id := dependsOn]);
    if forall d :: d in dependsOn ==> d in g.ids {
      NewNodeAcyclic(g, h, id, dependsOn);
      forall a, b | a in h.deps && b in h.deps[a] ensures SoundReference(h, a, b) {
        if a != id { assert SoundReference(g, a, b); }
      }
    }
    if SoundGraph(h) {
      forall d | d in dependsOn ensures d in g.ids {
        assert SoundReference(h, id, d);
      }
    }
  }

  lemma NewNodeAcyclic(g: Graph, h: Graph, id: string, dependsOn: seq<string>)
    requires SoundGraph(g) && id !in g.ids && g.deps.Keys == g.ids
    requires h == Graph(g.ids + {id}, g.deps[id := dependsOn]) && forall d :: d in dependsOn ==> d in g.ids
    ensures !Cyclic(h)
  {
    AcyclicIffOrdered(g);
    var order :| TopologicalOrder(g, order);
    var next := order + [id];
    forall i, b | 0 <= i < |next| && Edge(h, next[i], b) ensures b in next[..i] {
      if i < |order| {
        assert order[i] in g.ids && SoundReference(g, order[i], b) && Edge(g, order[i], b);
        assert next[..i] == order[..i];
      } else {
        assert next[..i] == order;
      }
    }
    OrderMeansAcyclic(h, next);
  }

  // ---------------------------------------------------------------------------
  // A composed profile
  // ---------------------------------------------------------------------------

  ghost predicate DotFreeIds(modules: seq<Instance>) {
    forall id :: id in EnabledIds(modules) ==> '.' !in id
  }

  /** The instance a successful composition appends. */
  function NewInstance(p: Profile, library: Library, request: Request): Instance
    requires Compose(p, library, request).Composed?
  {
    var modules := Compose(p, library, request).profile.modules;
    modules[|modules| - 1]
  }

  function Consumed(library: Library, request: Request): seq<Consume>
    requires request.source in library
  {
    library[request.source].consumed
  }

  function WiringOf(p: Profile, library: Library, request: Request): Wiring
    requires request.source in library
  {
    Wire(Wiring(Configured(request.settings), request.dependsOn, []), Consumed(library, request), request.bindings,
         Providers(p.modules, library))
  }

  /** One instance is appended, under an id nobody has, and all others stay as they are. */
  lemma OneInstanceAppended(p: Profile, library: Library, request: Request)
    requires Compose(p, library, request).Composed?
    ensures var new_ := NewInstance(p, library, request);
            && Compose(p, library, request).profile.modules == p.modules + [new_]
            && new_.id.Some? && Strip(new_.id.value) != "" && (forall m :: m in p.modules ==> m.id != new_.id)
            && (if request.instanceId.Some? && request.instanceId != Some("") then new_.id == request.instanceId
                else request.source in library && new_.id == library[request.source].name)
            && new_.source == Some(request.source) && new_.enabled == request.enabled
            && request.source in library
            && new_.config == WiringOf(p, library, request).config
            && WiringOf(p, library, request).codes == []
            && (forall d :: d in new_.dependsOn <==> d in WiringOf(p, library, request).dependsOn)
            && forall i, j :: 0 <= i < j < |new_.dependsOn| ==> new_.dependsOn[i] != new_.dependsOn[j]
  {
    OnceKeeps(WiringOf(p, library, request).dependsOn);
  }

  /** Every enabled instance names a module file that can be used. */
  predicate AllReadable(modules: seq<Instance>, library: Library) {
    forall m :: m in modules && m.enabled && m.source.Some? ==> m.source.value in library
  }

  predicate IdTaken(modules: seq<Instance>, id: string) {
    exists m :: m in modules && m.id == Some(id)
  }

  lemma TakenIff(modules: seq<Instance>, id: string)
    ensures id in Ids(modules) <==> IdTaken(modules, id)
  {
    if m :| m in modules && m.id == Some(id) {
      var i :| 0 <= i < |modules| && modules[i] == m;
    }
  }

  /** The alias is defined by the profile, or the caller names a variable for it. */
  predicate Nameable(alias: string, p: Profile, request: Request) {
    alias in p.secrets || (alias in request.secretNames && request.secretNames[alias] != "")
  }

  /** What stands in the way of composing, in the order in which it is noticed. */
  lemma {:induction false} ComposedIff(p: Profile, library: Library, request: Request, id: Option<string>)
    requires request.source in library
    requires id == if request.instanceId in {None, Some("")} then library[request.source].name else request.instanceId
    ensures Compose(p, library, request).Composed? <==>
            && library[request.source].isModule && AllReadable(p.modules, library)
            && id.Some? && Strip(id.value) != "" && !IdTaken(p.modules, id.value)
            && (forall c :: c in Consumed(library, request) && c.name != "" && c.mappedFrom != "" ==>
                  !Choose(c, request.bindings, Providers(p.modules, library)).Refused?)
            && (forall alias :: alias != "" && Mentions(Map(WiringOf(p, library, request).config), "secrets." + alias)
                  ==> Nameable(alias, p, request))
    ensures !library[request.source].isModule ==> Compose(p, library, request) == Failed([E121])
    ensures library[request.source].isModule && AllReadable(p.modules, library) ==>
              && (id.None? || Strip(id.value) == "" ==> Compose(p, library, request) == Failed([E122]))
              && (id.Some? && Strip(id.value) != "" && IdTaken(p.modules, id.value) ==>
                    Compose(p, library, request) == Failed([E123]))
  {
    LoadErrorsIff(p.modules, library);
    if id.Some? { TakenIff(p.modules, id.value); }
    var consumed, providers := Consumed(library, request), Providers(p.modules, library);
    var w := WiringOf(p, library, request);
    NothingRefused(Wiring(Configured(request.settings), request.dependsOn, []), consumed, request.bindings, providers);
    assert forall c :: c in consumed <==> exists i :: 0 <= i < |consumed| && consumed[i] == c;
    AllNamedIff(p, request, Map(w.config));
  }

  lemma {:induction false} AllNamedIff(p: Profile, request: Request, config: Value)
    ensures Unnamed(Aliases(config), p.secrets, request.secretNames) == {} <==>
            forall alias :: alias != "" && Mentions(config, "secrets." + alias) ==> Nameable(alias, p, request)
  {
    var unnamed := Unnamed(Aliases(config), p.secrets, request.secretNames);
    forall alias ensures alias in unnamed <==>
                         alias != "" && Mentions(config, "secrets." + alias) && !Nameable(alias, p, request) {
      AliasIff(config, alias);
    }
  }

  /**
   Every consumed contract is bound to an offer of its kind, whose module is depended
   on, or is optional and without a provider. Where it is bound, the configuration refers
   to the offer exactly when no contract bound later has taken its place.
   */
  lemma {:induction false} ContractsWired(p: Profile, library: Library, request: Request, i: nat)
    requires Compose(p, library, request).Composed?
    requires request.source in library && i < |Consumed(library, request)| && IsMapped(Consumed(library, request)[i])
    ensures var consumed, providers := Consumed(library, request), Providers(p.modules, library);
            var c := consumed[i];
            match Choose(c, request.bindings, providers)
            case Bound(ref) =>
              && ref in providers && c.kind == Some(providers[ref])
              && (RefersTo(NewInstance(p, library, request).config, c, ref) <==>
                  NotOverwritten(consumed, request.bindings, providers, i))
              && (PlacesApart(consumed) ==> NotOverwritten(consumed, request.bindings, providers, i))
              && ProviderOf(ref) in NewInstance(p, library, request).dependsOn
            case Unbound =>
              !c.required && c.name !in request.bindings && forall ref :: ref in providers ==>
                c.kind != Some(providers[ref])
            case Refused(_) => false
  {
    var consumed, providers := Consumed(library, request), Providers(p.modules, library);
    var c, start := consumed[i], Wiring(Configured(request.settings), request.dependsOn, []);
    OneInstanceAppended(p, library, request);
    NothingRefused(start, consumed, request.bindings, providers);
    ChoiceFits(c, request.bindings, providers);
    if Choose(c, request.bindings, providers).Bound? {
      BoundIsReferredToIff(start, consumed, request.bindings, providers, i);
      WiredDependencies(start, consumed, request.bindings, providers,
                        ProviderOf(Choose(c, request.bindings, providers).ref));
    } else if Choose(c, request.bindings, providers).Unbound? {
      forall ref | ref in providers ensures c.kind != Some(providers[ref]) {
        assert !Fits(c, ref, providers);
      }
    }
  }

  /** A setting of the caller is in the new configuration, unless a later one or a bound contract reaches its place. */
  lemma {:induction false} SettingsKept(p: Profile, library: Library, request: Request, i: nat)
    requires Compose(p, library, request).Composed? && request.source in library
    requires i < |request.settings|
    requires var place := SplitOn(request.settings[i].path, '.');
             && (forall j :: i < j < |request.settings| ==>
                   !Reaches(SplitOn(request.settings[j].path, '.'), request.settings[j].value, place))
             && LastTouching(Consumed(library, request), request.bindings, Providers(p.modules, library), place) == None
    ensures var place := SplitOn(request.settings[i].path, '.');
            At(Map(NewInstance(p, library, request).config), place) ==
            Some(UpdatedWith(At(Map(Configured(request.settings[..i])), place), request.settings[i].value))
  {
    OneInstanceAppended(p, library, request);
    SettingHolds(request.settings, i);
    WiredReference(Wiring(Configured(request.settings), request.dependsOn, []), Consumed(library, request),
                   request.bindings, Providers(p.modules, library), SplitOn(request.settings[i].path, '.'));
  }

  /** Every bound reference begins with the id of an enabled module. */
  ghost predicate ProducersEnabled(p: Profile, library: Library, request: Request)
    requires request.source in library
  {
    var consumed, providers := Consumed(library, request), Providers(p.modules, library);
    forall i :: 0 <= i < |consumed| && IsBound(consumed[i], request.bindings, providers) ==>
      ProviderOf(Choose(consumed[i], request.bindings, providers).ref) in EnabledIds(p.modules)
  }

  /** Without dots in module ids they all do. */
  lemma DotFreeProducersEnabled(p: Profile, library: Library, request: Request)
    requires request.source in library && DotFreeIds(p.modules)
    ensures ProducersEnabled(p, library, request)
  {
    var consumed, providers := Consumed(library, request), Providers(p.modules, library);
    forall i | 0 <= i < |consumed| && IsBound(consumed[i], request.bindings, providers)
      ensures ProviderOf(Choose(consumed[i], request.bindings, providers).ref) in EnabledIds(p.modules)
    {
      var ref := Choose(consumed[i], request.bindings, providers).ref;
      ChoiceFits(consumed[i], request.bindings, providers);
      ProviderIsEnabled(p.modules, library, ref);
      var id, name :| id in EnabledIds(p.modules) && ref == id + "." + name;
      ProviderIff(id, name);
    }
  }

  /**
   A sound dependency graph stays sound exactly when the new module is left out of it,
   or the caller's own dependencies name modules that are in it and every bound reference
   begins with the id of one; the latter is certain where ids hold no dot.
   */
  lemma GraphStaysSoundIff(p: Profile, library: Library, request: Request)
    requires Compose(p, library, request).Composed? && SoundGraph(GraphOf(p.modules))
    ensures request.source in library
    ensures SoundGraph(GraphOf(Compose(p, library, request).profile.modules)) <==>
            || !request.enabled
            || ((forall d :: d in request.dependsOn ==> d in EnabledIds(p.modules)) &&
                ProducersEnabled(p, library, request))
    ensures DotFreeIds(p.modules) ==> ProducersEnabled(p, library, request)
  {
    var new_ := NewInstance(p, library, request);
    OneInstanceAppended(p, library, request);
    GraphWithOneMore(p.modules, new_);
    if DotFreeIds(p.modules) { DotFreeProducersEnabled(p, library, request); }
    if request.enabled {
      DependenciesKeys(p.modules);
      FreshIsNotEnabled(p.modules, new_.id.value);
      NewNodeSoundIff(GraphOf(p.modules), new_.id.value, new_.dependsOn);
      DependenciesEnabledIff(p, library, request);
    }
  }

  lemma FreshIsNotEnabled(modules: seq<Instance>, id: string)
    requires id !in Ids(modules)
    ensures id !in EnabledIds(modules)
  {
  }

  lemma DependenciesEnabledIff(p: Profile, library: Library, request: Request)
    requires Compose(p, library, request).Composed? && request.source in library
    ensures (forall d :: d in NewInstance(p, library, request).dependsOn ==> d in EnabledIds(p.modules)) <==>
            (forall d :: d in request.dependsOn ==> d in EnabledIds(p.modules)) && ProducersEnabled(p, library, request)
  {
    OneInstanceAppended(p, library, request);
    var start := Wiring(Configured(request.settings), request.dependsOn, []);
    forall d
      ensures d in NewInstance(p, library, request).dependsOn <==>
              || d in request.dependsOn
              || exists i :: 0 <= i < |Consumed(library, request)| &&
                   IsBound(Consumed(library, request)[i], request.bindings, Providers(p.modules, library)) &&
                   ProviderOf(Choose(Consumed(library, request)[i], request.bindings,
                                     Providers(p.modules, library)).ref) == d
    {
      WiredDependencies(start, Consumed(library, request), request.bindings, Providers(p.modules, library), d);
    }
  }

  /** Afterwards exactly the old secrets and those the new module refers to are defined, the old ones as before. */
  lemma SecretsDefined(p: Profile, library: Library, request: Request)
    requires Compose(p, library, request).Composed?
    ensures var after, used :=
            Compose(p, library, request).profile.secrets, Aliases(Map(NewInstance(p, library, request).config));
            && after.Keys == p.secrets.Keys + used
            && (forall alias :: alias in p.secrets ==> after[alias] == p.secrets[alias])
            && (forall alias :: alias in used && alias !in p.secrets ==>
                  && alias in request.secretNames && request.secretNames[alias] != ""
                  && after[alias] == Map(map["env" := Str(request.secretNames[alias]), "required" := Bool(true)]))
  {
    OneInstanceAppended(p, library, request);
    var used := Aliases(Map(NewInstance(p, library, request).config));
    forall alias | alias in used && alias !in p.secrets ensures IsNamed(alias, request.secretNames) {
      assert alias !in Unnamed(used, p.secrets, request.secretNames);
    }
  }
}
