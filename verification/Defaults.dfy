// Filling a module's configuration from its schema (cli/planner.py).
module Defaults {
  import opened Document

  datatype Kind = Object | Array | Other

  /** A configuration schema, as far as defaults are concerned. */
  datatype Schema = Schema(
    kind: Kind,
    byEnvironment: Option<map<string, Value>>,
    default_: Option<Value>,
    properties: map<string, Schema>,
    items: Option<Schema>)

  type Environment = Option<string>

  const MAX_NESTING_DEPTH: nat := 100

  /** The environment's own default, else the generic one, else the plain one. */
  function DefaultOf(s: Schema, env: Environment): Option<Value> {
    if s.byEnvironment.Some? && env.Some? && env.value in s.byEnvironment.value
    then Some(s.byEnvironment.value[env.value])
    else if s.byEnvironment.Some? && "default" in s.byEnvironment.value then Some(s.byEnvironment.value["default"])
    else s.default_
  }

  function OrDefault(v: Value, s: Schema, env: Environment): Value {
    if v == Null && DefaultOf(s, env).Some? then DefaultOf(s, env).value else v
  }

  datatype Fill = Raised | Absent | Present(value: Value)

  function FillOf(outcome: Option<Value>): Fill {
    if outcome.None? then Raised else Present(outcome.value)
  }

  /** `None` stands for the error of nesting too deeply. */
  function Apply(v: Value, s: Schema, env: Environment, depth: nat): Option<Value>
    decreases s, 1
  {
    if depth > MAX_NESTING_DEPTH then None
    else
      var value := OrDefault(v, s, env);
      match s.kind
      case Object =>
        if value == Null then ApplyObject(map[], s, env, depth)
        else if value.Map? then ApplyObject(value.fields, s, env, depth)
        else Some(value)
      case Array =>
        if value == Null then Some(List([]))
        else if !value.List? then Some(value)
        else ApplyItems(value.items, s, env, depth)
      case Other => Some(value)
  }

  function ApplyItems(items: seq<Value>, s: Schema, env: Environment, depth: nat): Option<Value>
    decreases s, 0, 1
  {
    if exists i :: 0 <= i < |items| && ApplyItem(items[i], s, env, depth).None? then None
    else Some(List(seq(|items|, i requires 0 <= i < |items| && ApplyItem(items[i], s, env, depth).Some? =>
                         ApplyItem(items[i], s, env, depth).value)))
  }

  function ApplyObject(fields: Fields, s: Schema, env: Environment, depth: nat): Option<Value>
    decreases s, 0, 1
  {
    if exists p :: p in s.properties && FillProperty(fields, p, s, env, depth).Raised? then None
    else Some(Map(map p | p in fields.Keys + s.properties.Keys && FillProperty(fields, p, s, env, depth).Present? ::
                    FillProperty(fields, p, s, env, depth).value))
  }

  function FillProperty(fields: Fields, p: string, s: Schema, env: Environment, depth: nat): Fill
    requires p in fields || p in s.properties
    decreases s, 0, 0
  {
    if p in s.properties then FillOneOf(fields, p, s.properties[p], env, depth + 1) else Present(fields[p])
  }

  function FillOneOf(fields: Fields, p: string, schema: Schema, env: Environment, depth: nat): Fill
    decreases schema, 2
  {
    if p in fields then FillOf(Apply(fields[p], schema, env, depth))
    else if DefaultOf(schema, env).Some? then FillOf(Apply(DefaultOf(schema, env).value, schema, env, depth))
    else if schema.kind == Object then
      var nested := Apply(Map(map[]), schema, env, depth);
      if nested == Some(Map(map[])) then Absent else FillOf(nested)
    else Absent
  }

  /** Without an item schema, items are as good as anything. */
  function ApplyItem(item: Value, s: Schema, env: Environment, depth: nat): Option<Value>
    decreases s, 0, 0
  {
    if s.items.Some? then Apply(item, s.items.value, env, depth + 1)
    else if depth + 1 > MAX_NESTING_DEPTH then None
    else Some(item)
  }

  lemma {:induction false} ObjectOutcome(fields: Fields, s: Schema, env: Environment, depth: nat)
    ensures ApplyObject(fields, s, env, depth).None? <==>
            exists p :: p in s.properties && FillProperty(fields, p, s, env, depth).Raised?
    ensures ApplyObject(fields, s, env, depth).Some? ==> ApplyObject(fields, s, env, depth).value.Map?
    ensures ApplyObject(fields, s, env, depth).Some? ==>
              var after := ApplyObject(fields, s, env, depth).value.fields;
              && (forall p :: p in after ==> p in fields || p in s.properties)
              && (forall p :: p in fields || p in s.properties ==>
                    FillProperty(fields, p, s, env, depth) == if p in after then Present(after[p]) else Absent)
  {
  }

  lemma {:induction false} ObjectIsMap(fields: Fields, s: Schema, env: Environment, depth: nat)
    requires s.kind == Object
    ensures Apply(Map(fields), s, env, depth) ==
            if depth > MAX_NESTING_DEPTH then None else ApplyObject(fields, s, env, depth)
  {
  }

  lemma {:induction false} ItemsOutcome(items: seq<Value>, s: Schema, env: Environment, depth: nat)
    ensures var outcome := ApplyItems(items, s, env, depth);
            && (outcome.None? <==> exists i :: 0 <= i < |items| && ApplyItem(items[i], s, env, depth).None?)
            && (outcome.Some? ==> outcome.value.List? && |outcome.value.items| == |items|)
            && (outcome.Some? ==> forall i :: 0 <= i < |items| ==>
                ApplyItem(items[i], s, env, depth) == Some(outcome.value.items[i]))
  {
  }

  lemma {:induction false} ListsAreItems(items: seq<Value>, s: Schema, env: Environment, depth: nat)
    requires s.kind == Array
    ensures Apply(List(items), s, env, depth) ==
            if depth > MAX_NESTING_DEPTH then None else ApplyItems(items, s, env, depth)
  {
  }

  method ApplySchemaDefaults(v: Value, s: Schema, env: Environment, depth: nat) returns (result: Option<Value>)
    ensures result == Apply(v, s, env, depth)
    decreases s, 1
  {
    if depth > MAX_NESTING_DEPTH {
      return None;
    }
    var value := OrDefault(v, s, env);
    match s.kind
    case Object =>
      if value == Null {
        value := Map(map[]);
      }
      if !value.Map? {
        return Some(value);
      }
      result := FillProperties(value.fields, s, env, depth);
    case Array =>
      if value == Null {
        return Some(List([]));
      }
      if !value.List? {
        return Some(value);
      }
      ItemsOutcome(value.items, s, env, depth);
      var items := [];
      for i := 0 to |value.items|
        invariant |items| == i
        invariant forall j :: 0 <= j < i ==> ApplyItem(value.items[j], s, env, depth) == Some(items[j])
      {
        var item: Option<Value>;
        if s.items.Some? {
          item := ApplySchemaDefaults(value.items[i], s.items.value, env, depth + 1);
        } else if depth + 1 > MAX_NESTING_DEPTH {
          item := None;
        } else {
          item := Some(value.items[i]);
        }
        if item.None? {
          assert ApplyItem(value.items[i], s, env, depth).None?;
          return None;
        }
        items := items + [item.value];
      }
      result := Some(List(items));
      assert items == ApplyItems(value.items, s, env, depth).value.items;
    case Other =>
      return Some(value);
  }

  /** The loop over the schema's properties, filling a copy of the mapping. */
  method FillProperties(fields: Fields, s: Schema, env: Environment, depth: nat) returns (result: Option<Value>)
    ensures result == ApplyObject(fields, s, env, depth)
    decreases s, 0
  {
    var filled := fields;
    var todo := s.properties.Keys;
    ObjectOutcome(fields, s, env, depth);
    while todo != {}
      invariant todo <= s.properties.Keys
      invariant FilledSoFar(fields, filled, s, env, depth, todo)
      decreases todo
    {
      var p :| p in todo;
      var fill := FillOne(filled, p, s.properties[p], env, depth + 1);
      FillReads(fields, filled, p, s, env, depth);
      if fill.Raised? {
        return None;
      }
      if fill.Present? {
        filled := filled[p := fill.value];
      }
      todo := todo - {p};
    }
    result := Some(Map(filled));
    FilledAsStated(fields, filled, s, env, depth);
  }

  /** One property: recurse into its value, its default, or an empty mapping. */
  method FillOne(fields: Fields, p: string, schema: Schema, env: Environment, depth: nat) returns (fill: Fill)
    ensures fill == FillOneOf(fields, p, schema, env, depth)
    decreases schema, 2
  {
    if p in fields {
      var value := ApplySchemaDefaults(fields[p], schema, env, depth);
      return FillOf(value);
    }
    var fallback := DefaultOf(schema, env);
    if fallback.Some? {
      var value := ApplySchemaDefaults(fallback.value, schema, env, depth);
      return FillOf(value);
    }
    if schema.kind == Object {
      var nested := ApplySchemaDefaults(Map(map[]), schema, env, depth);
      if nested != Some(Map(map[])) {
        return FillOf(nested);
      }
    }
    fill := Absent;
  }

  /** The loop has dealt with the properties not in `todo`, and left the rest alone. */
  ghost predicate FilledSoFar(
    fields: Fields, filled: Fields, s: Schema, env: Environment, depth: nat, todo: set<string>)
  {
    && filled.Keys <= fields.Keys + s.properties.Keys
    && (forall p :: p in todo || p !in s.properties ==> (p in filled <==> p in fields))
    && (forall p :: p in fields && (p in todo || p !in s.properties) ==> filled[p] == fields[p])
    && (forall p :: p in s.properties && p !in todo ==>
          FillProperty(fields, p, s, env, depth) == if p in filled then Present(filled[p]) else Absent)
  }

  lemma {:induction false} FillReads(fields: Fields, filled: Fields, p: string, s: Schema, env: Environment, depth: nat)
    requires p in s.properties && (p in filled <==> p in fields) && (p in fields ==> filled[p] == fields[p])
    ensures FillProperty(fields, p, s, env, depth) == FillOneOf(filled, p, s.properties[p], env, depth + 1)
  {
  }

  lemma {:induction false} FilledAsStated(fields: Fields, filled: Fields, s: Schema, env: Environment, depth: nat)
    requires FilledSoFar(fields, filled, s, env, depth, {})
    ensures ApplyObject(fields, s, env, depth) == Some(Map(filled))
  {
    forall p | p in fields || p in s.properties
      ensures FillProperty(fields, p, s, env, depth) == if p in filled then Present(filled[p]) else Absent
    {
    }
    OutcomeIsFilled(fields, filled, s, env, depth);
  }

  lemma {:induction false} OutcomeIsFilled(fields: Fields, filled: Fields, s: Schema, env: Environment, depth: nat)
    requires filled.Keys <= fields.Keys + s.properties.Keys
    requires forall p :: p in fields || p in s.properties ==>
               FillProperty(fields, p, s, env, depth) == if p in filled then Present(filled[p]) else Absent
    ensures ApplyObject(fields, s, env, depth) == Some(Map(filled))
  {
    ObjectOutcome(fields, s, env, depth);
    assert ApplyObject(fields, s, env, depth).Some?;
    assert ApplyObject(fields, s, env, depth).value.fields == filled;
  }

  // ---------------------------------------------------------------------------
  // What defaulting keeps and adds
  // ---------------------------------------------------------------------------

  /** Everything written explicitly is still there: values, keys and list lengths. */
  predicate Keeps(before: Value, after: Value) {
    match before
    case Null => true
    case Map(fields) => after.Map? && forall k :: k in fields ==> k in after.fields && Keeps(fields[k], after.fields[k])
    case List(items) => after.List? && |after.items| == |items| && forall i :: 0 <= i < |items| ==>
      Keeps(items[i], after.items[i])
    case _ => after == before
  }

  lemma {:induction false} KeepsSelf(v: Value)
    ensures Keeps(v, v)
  {
    match v
    case Map(fields) => forall k | k in fields ensures Keeps(fields[k], fields[k]) { KeepsSelf(fields[k]); }
    case List(items) => forall i | 0 <= i < |items| ensures Keeps(items[i], items[i]) { KeepsSelf(items[i]); }
    case _ =>
  }

  /** Explicit non-null values survive defaulting. */
  lemma {:induction false} DefaultsKeepValues(v: Value, s: Schema, env: Environment, depth: nat)
    ensures Apply(v, s, env, depth).Some? ==> Keeps(v, Apply(v, s, env, depth).value)
    decreases s
  {
    KeepsSelf(v);
    if s.kind == Object && v.Map? {
      ObjectIsMap(v.fields, s, env, depth);
      ObjectOutcome(v.fields, s, env, depth);
      forall k | k in v.fields
        ensures !FillProperty(v.fields, k, s, env, depth).Raised? ==>
                  FillProperty(v.fields, k, s, env, depth).Present? &&
                    Keeps(v.fields[k], FillProperty(v.fields, k, s, env, depth).value)
      {
        KeepsSelf(v.fields[k]);
        if k in s.properties { DefaultsKeepValues(v.fields[k], s.properties[k], env, depth + 1); }
      }
    } else if s.kind == Array && v.List? {
      ListsAreItems(v.items, s, env, depth);
      ItemsOutcome(v.items, s, env, depth);
      forall i | 0 <= i < |v.items|
        ensures ApplyItem(v.items[i], s, env, depth).Some? ==>
                Keeps(v.items[i], ApplyItem(v.items[i], s, env, depth).value)
      {
        KeepsSelf(v.items[i]);
        if s.items.Some? { DefaultsKeepValues(v.items[i], s.items.value, env, depth + 1); }
      }
    }
  }

  /** A missing property is filled in: it has a default, or something inside it has. */
  predicate Wanted(s: Schema, env: Environment) {
    DefaultOf(s, env).Some? || (s.kind == Object && exists p :: p in s.properties && Wanted(s.properties[p], env))
  }

  lemma {:induction false} WantedIffFilled(fields: Fields, p: string, schema: Schema, env: Environment, depth: nat)
    requires p !in fields && !FillOneOf(fields, p, schema, env, depth).Raised?
    ensures FillOneOf(fields, p, schema, env, depth).Present? <==> Wanted(schema, env)
    decreases schema
  {
    if DefaultOf(schema, env).None? && schema.kind == Object {
      ObjectIsMap(map[], schema, env, depth);
      ObjectOutcome(map[], schema, env, depth);
      var nested := ApplyObject(map[], schema, env, depth).value.fields;
      forall q | q in schema.properties
        ensures q in nested <==> Wanted(schema.properties[q], env)
      {
        assert !FillProperty(map[], q, schema, env, depth).Raised?;
        WantedIffFilled(map[], q, schema.properties[q], env, depth + 1);
      }
      SomeKey(nested);
    }
  }

  lemma SomeKey(fields: Fields)
    ensures fields == map[] || exists k :: k in fields
  {
    assert fields.Keys == {} || exists k :: k in fields;
  }

  /** The keys of a defaulted object: those written, and those the schema fills in. */
  lemma {:induction false} KeysAfterDefaults(v: Value, s: Schema, env: Environment, depth: nat)
    requires v.Map? && s.kind == Object && Apply(v, s, env, depth).Some?
    ensures Apply(v, s, env, depth).value.Map?
    ensures forall p :: p in Apply(v, s, env, depth).value.fields <==>
              p in v.fields || (p in s.properties && Wanted(s.properties[p], env))
  {
    ObjectIsMap(v.fields, s, env, depth);
    ObjectOutcome(v.fields, s, env, depth);
    DefaultsKeepValues(v, s, env, depth);
    forall p | p in s.properties && p !in v.fields
      ensures p in Apply(v, s, env, depth).value.fields <==> Wanted(s.properties[p], env)
    {
      assert !FillProperty(v.fields, p, s, env, depth).Raised?;
      WantedIffFilled(v.fields, p, s.properties[p], env, depth + 1);
    }
  }

  // ---------------------------------------------------------------------------
  // Completeness, idempotence and the depth guard
  // ---------------------------------------------------------------------------

  /** Every object the schema reaches has all the properties that have a default. */
  predicate Complete(v: Value, s: Schema, env: Environment)
    decreases s
  {
    match s.kind
    case Object =>
      v.Map? ==>
        forall p :: p in s.properties ==>
          && (p in v.fields ==> Complete(v.fields[p], s.properties[p], env))
          && (Wanted(s.properties[p], env) ==> p in v.fields)
    case Array =>
      v.List? && s.items.Some? ==> forall i :: 0 <= i < |v.items| ==> Complete(v.items[i], s.items.value, env)
    case Other => true
  }

  lemma {:induction false} DefaultsComplete(v: Value, s: Schema, env: Environment, depth: nat)
    ensures Apply(v, s, env, depth).Some? ==> Complete(Apply(v, s, env, depth).value, s, env)
    decreases s, 0
  {
    var value := OrDefault(v, s, env);
    if s.kind == Object && (value == Null || value.Map?) {
      var fields := if value.Map? then value.fields else map[];
      ObjectOutcome(fields, s, env, depth);
      forall p | p in s.properties
        ensures var fill := FillProperty(fields, p, s, env, depth);
                && (fill.Present? ==> Complete(fill.value, s.properties[p], env))
                && (Wanted(s.properties[p], env) ==> !fill.Absent?)
      {
        FillComplete(fields, p, s.properties[p], env, depth + 1);
      }
    } else if s.kind == Array && value.List? {
      ItemsOutcome(value.items, s, env, depth);
      if s.items.Some? {
        forall i | 0 <= i < |value.items|
          ensures ApplyItem(value.items[i], s, env, depth).Some? ==>
                    Complete(ApplyItem(value.items[i], s, env, depth).value, s.items.value, env)
        {
          DefaultsComplete(value.items[i], s.items.value, env, depth + 1);
        }
      }
    }
  }

  lemma {:induction false} FillComplete(fields: Fields, p: string, schema: Schema, env: Environment, depth: nat)
    ensures var fill := FillOneOf(fields, p, schema, env, depth);
            && (fill.Present? ==> Complete(fill.value, schema, env))
            && (Wanted(schema, env) ==> !fill.Absent?)
    decreases schema, 1
  {
    if p in fields {
      DefaultsComplete(fields[p], schema, env, depth);
    } else {
      if DefaultOf(schema, env).Some? {
        DefaultsComplete(DefaultOf(schema, env).value, schema, env, depth);
      } else if schema.kind == Object {
        DefaultsComplete(Map(map[]), schema, env, depth);
      }
      if !FillOneOf(fields, p, schema, env, depth).Raised? {
        WantedIffFilled(fields, p, schema, env, depth);
      }
    }
  }

  /** Defaulting a defaulted configuration changes nothing. */
  lemma {:induction false} DefaultsIdempotent(v: Value, s: Schema, env: Environment, depth: nat)
    ensures Apply(v, s, env, depth).Some? ==>
              Apply(Apply(v, s, env, depth).value, s, env, depth) == Apply(v, s, env, depth)
    decreases s, 2
  {
    var value := OrDefault(v, s, env);
    if depth <= MAX_NESTING_DEPTH {
      if s.kind == Object && (value == Null || value.Map?) {
        ObjectIdempotent(if value.Map? then value.fields else map[], s, env, depth);
      } else if s.kind == Array && (value == Null || value.List?) {
        ItemsIdempotent(if value.List? then value.items else [], s, env, depth);
        NoItems(s, env, depth);
      }
    }
  }

  lemma {:induction false} NoItems(s: Schema, env: Environment, depth: nat)
    ensures ApplyItems([], s, env, depth) == Some(List([]))
  {
    ItemsOutcome([], s, env, depth);
    assert ApplyItems([], s, env, depth).value.items == [];
  }

  lemma {:induction false} ObjectIdempotent(fields: Fields, s: Schema, env: Environment, depth: nat)
    requires s.kind == Object && depth <= MAX_NESTING_DEPTH
    ensures var outcome := ApplyObject(fields, s, env, depth); outcome.Some? ==>
            Apply(outcome.value, s, env, depth) == outcome
    decreases s, 1
  {
    ObjectOutcome(fields, s, env, depth);
    if ApplyObject(fields, s, env, depth).Some? {
      var after := ApplyObject(fields, s, env, depth).value.fields;
      ObjectIsMap(after, s, env, depth);
      ObjectOutcome(after, s, env, depth);
      forall p | p in after || p in s.properties
        ensures FillProperty(after, p, s, env, depth) == if p in after then Present(after[p]) else Absent
      {
        if p in s.properties { FillIdempotent(fields, after, p, s.properties[p], env, depth + 1); }
      }
      OutcomeIsFilled(after, after, s, env, depth);
    }
  }

  lemma {:induction false} ItemsIdempotent(items: seq<Value>, s: Schema, env: Environment, depth: nat)
    requires s.kind == Array && depth <= MAX_NESTING_DEPTH
    ensures var outcome := ApplyItems(items, s, env, depth); outcome.Some? ==>
            Apply(outcome.value, s, env, depth) == outcome
    decreases s, 1
  {
    ItemsOutcome(items, s, env, depth);
    if ApplyItems(items, s, env, depth).Some? {
      var after := ApplyItems(items, s, env, depth).value.items;
      ListsAreItems(after, s, env, depth);
      ItemsOutcome(after, s, env, depth);
      forall i | 0 <= i < |after| ensures ApplyItem(after[i], s, env, depth) == Some(after[i]) {
        if s.items.Some? { DefaultsIdempotent(items[i], s.items.value, env, depth + 1); }
      }
      assert ApplyItems(after, s, env, depth).value.items == after;
    }
  }

  lemma {:induction false} FillIdempotent(
    fields: Fields, after: Fields, p: string, schema: Schema, env: Environment, depth: nat)
    requires FillOneOf(fields, p, schema, env, depth) == if p in after then Present(after[p]) else Absent
    ensures FillOneOf(after, p, schema, env, depth) == FillOneOf(fields, p, schema, env, depth)
    decreases schema, 3
  {
    if p in fields {
      DefaultsIdempotent(fields[p], schema, env, depth);
    } else if DefaultOf(schema, env).Some? {
      DefaultsIdempotent(DefaultOf(schema, env).value, schema, env, depth);
    } else if schema.kind == Object {
      DefaultsIdempotent(Map(map[]), schema, env, depth);
    }
  }

  /** The schema reaches no further than `room` levels down. */
  predicate Shallow(s: Schema, room: int)
    decreases s
  {
    && room >= 0
    && (s.kind == Object ==> forall p :: p in s.properties ==> Shallow(s.properties[p], room - 1))
    && (s.kind == Array ==> if s.items.Some? then Shallow(s.items.value, room - 1) else room >= 1)
  }

  lemma {:induction false} ShallowNeverRaises(v: Value, s: Schema, env: Environment, depth: nat)
    requires Shallow(s, MAX_NESTING_DEPTH - depth)
    ensures Apply(v, s, env, depth).Some?
    decreases s
  {
    var value := OrDefault(v, s, env);
    if s.kind == Object && (value == Null || value.Map?) {
      var fields := if value.Map? then value.fields else map[];
      ObjectOutcome(fields, s, env, depth);
      forall p | p in s.properties ensures !FillProperty(fields, p, s, env, depth).Raised? {
        var schema := s.properties[p];
        if p in fields {
          ShallowNeverRaises(fields[p], schema, env, depth + 1);
        } else if DefaultOf(schema, env).Some? {
          ShallowNeverRaises(DefaultOf(schema, env).value, schema, env, depth + 1);
        } else {
          ShallowNeverRaises(Map(map[]), schema, env, depth + 1);
        }
      }
    } else if s.kind == Array && value.List? {
      ItemsOutcome(value.items, s, env, depth);
      forall i | 0 <= i < |value.items| ensures ApplyItem(value.items[i], s, env, depth).Some? {
        if s.items.Some? { ShallowNeverRaises(value.items[i], s.items.value, env, depth + 1); }
      }
    }
  }

  /** A value that leads defaulting down to the guard. */
  lemma {:induction false} DeepRaises(s: Schema, env: Environment, depth: nat) returns (v: Value)
    requires !Shallow(s, MAX_NESTING_DEPTH - depth)
    ensures Apply(v, s, env, depth).None?
    decreases s
  {
    v := Null;
    if depth <= MAX_NESTING_DEPTH {
      if s.kind == Object {
        var p :| p in s.properties && !Shallow(s.properties[p], MAX_NESTING_DEPTH - depth - 1);
        var inner := DeepRaises(s.properties[p], env, depth + 1);
        v := Map(map[p := inner]);
        assert FillProperty(v.fields, p, s, env, depth).Raised?;
        ObjectOutcome(v.fields, s, env, depth);
        ObjectIsMap(v.fields, s, env, depth);
      } else {
        var inner := Null;
        if s.items.Some? { inner := DeepRaises(s.items.value, env, depth + 1); }
        v := List([inner]);
        assert ApplyItem(v.items[0], s, env, depth).None?;
        ItemsOutcome(v.items, s, env, depth);
        ListsAreItems(v.items, s, env, depth);
      }
    }
  }

  ghost predicate NeverRaises(s: Schema, env: Environment, depth: nat) {
    forall v :: Apply(v, s, env, depth).Some?
  }

  /** The guard lets every configuration through exactly when the schema itself is shallow enough. */
  lemma {:induction false} GuardIsAboutSchemas(s: Schema, env: Environment, depth: nat)
    ensures NeverRaises(s, env, depth) <==> Shallow(s, 100 - depth)
  {
    if Shallow(s, MAX_NESTING_DEPTH - depth) {
      forall v ensures Apply(v, s, env, depth).Some? { ShallowNeverRaises(v, s, env, depth); }
    } else {
      var v := DeepRaises(s, env, depth);
      assert Apply(v, s, env, depth).None?;
    }
  }

  /** Where there is no default, an object counts as empty and a list as one without items; anything else is kept. */
  lemma {:induction false} MissingValue(v: Value, s: Schema, env: Environment, depth: nat)
    requires depth <= 100
    ensures v == Null && s.byEnvironment.None? && s.default_.None? ==>
              Apply(v, s, env, depth) ==
              match s.kind
              case Object => Apply(Map(map[]), s, env, depth)
              case Array => Some(List([]))
              case Other => Some(Null)
    ensures v != Null && !(s.kind == Object && v.Map?) && !(s.kind == Array && v.List?) ==>
              Apply(v, s, env, depth) == Some(v)
  {
  }

  /** The guard is hit below a hundred levels. */
  lemma {:induction false} GuardIsAtHundred(v: Value, s: Schema, env: Environment, depth: nat)
    ensures depth > 100 ==> Apply(v, s, env, depth) == None
    ensures s.kind == Other ==> (Apply(v, s, env, depth) == None <==> depth > 100)
  {
  }

  lemma {:induction false} ScalarOutcome(v: Value, s: Schema, env: Environment, depth: nat)
    requires s.kind == Other
    ensures Apply(v, s, env, depth) == if depth > MAX_NESTING_DEPTH then None else Some(OrDefault(v, s, env))
  {
  }

  /** Where a scalar property comes from: the configuration, then environment, generic and plain default. */
  lemma {:induction false} ScalarSource(v: Value, p: string, s: Schema, env: Environment, depth: nat)
    requires v.Map? && s.kind == Object && p in s.properties && s.properties[p].kind == Other
    requires Apply(v, s, env, depth).Some?
    ensures var schema, after := s.properties[p], Apply(v, s, env, depth).value;
            var written := if p in v.fields then v.fields[p] else Null;
            var byEnv := if schema.byEnvironment.Some? then schema.byEnvironment.value else map[];
            && after.Map?
            && (written != Null ==> p in after.fields && after.fields[p] == written)
            && (written == Null && env.Some? && env.value in byEnv ==>
                p in after.fields && after.fields[p] == byEnv[env.value])
            && (written == Null && !(env.Some? && env.value in byEnv) && "default" in byEnv ==>
                  p in after.fields && after.fields[p] == byEnv["default"])
            && (written == Null && !(env.Some? && env.value in byEnv) && "default" !in byEnv &&
                schema.default_.Some? ==>
                  p in after.fields && after.fields[p] == schema.default_.value)
  {
    ObjectIsMap(v.fields, s, env, depth);
    ObjectOutcome(v.fields, s, env, depth);
    var schema := s.properties[p];
    assert FillProperty(v.fields, p, s, env, depth) == FillOneOf(v.fields, p, schema, env, depth + 1);
    assert !FillProperty(v.fields, p, s, env, depth).Raised?;
    if p in v.fields {
      ScalarOutcome(v.fields[p], schema, env, depth + 1);
    } else if DefaultOf(schema, env).Some? {
      ScalarOutcome(DefaultOf(schema, env).value, schema, env, depth + 1);
    }
  }
}
