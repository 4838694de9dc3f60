/** Variables, and the values of arguments that mention them. */
module InputValues {
  import opened Wrappers
  import opened Gathering
  import opened Document

  type Variables = map<Name, Value>

  // ----- variables -----

  /** The first definition of a variable. */
  function FindDefinition(defs: seq<VariableDefinition>, name: Name): Option<VariableDefinition> {
    if defs == [] then None
    else if defs[0].name == name then Some(defs[0])
    else FindDefinition(defs[1..], name)
  }

  /** The value of a defined variable: what the request supplies, else the default of its definition,
      else nothing.  An undefined variable is an error. */
  function VarValue(defs: seq<VariableDefinition>, vars: Variables, name: Name): Result<Option<Value>, Name> {
    match FindDefinition(defs, name)
    case None => Err(name)
    case Some(def) => Ok(if name in vars then Some(vars[name]) else def.defaultValue)
  }

  /** The request's variables completed with the defaults of the operation. */
  function WithDefaults(defs: seq<VariableDefinition>, vars: Variables): Variables {
    if defs == [] then vars
    else
      var before, def := WithDefaults(defs[..|defs| - 1], vars), defs[|defs| - 1];
      if def.name !in before && def.defaultValue.Some? then before[def.name := def.defaultValue.value] else before
  }

  method CompleteVariables(defs: seq<VariableDefinition>, vars: Variables) returns (completed: Variables)
    ensures completed == WithDefaults(defs, vars)
    ensures forall name :: name in vars ==> name in completed && completed[name] == vars[name]
  {
    completed := vars;
    for i := 0 to |defs|
      invariant completed == WithDefaults(defs[..i], vars)
      invariant forall name :: name in vars ==> name in completed && completed[name] == vars[name]
    {
      assert defs[..i + 1][..i] == defs[..i];
      if defs[i].name !in completed && defs[i].defaultValue.Some? {
        completed := completed[defs[i].name := defs[i].defaultValue.value];
      }
    }
    assert defs[..|defs|] == defs;
  }

  /** The first default written for a name, by any of its definitions. */
  function FirstDefault(defs: seq<VariableDefinition>, name: Name): Option<Value> {
    if defs == [] then None
    else if defs[0].name == name && defs[0].defaultValue.Some? then defs[0].defaultValue
    else FirstDefault(defs[1..], name)
  }

  lemma {:induction false} FirstDefaultSnoc(defs: seq<VariableDefinition>, def: VariableDefinition, name: Name)
    ensures FirstDefault(defs + [def], name) ==
            if FirstDefault(defs, name).Some? then FirstDefault(defs, name)
            else if def.name == name then def.defaultValue else None
  {
    if defs != [] {
      FirstDefaultSnoc(defs[1..], def, name);
      assert (defs + [def])[1..] == defs[1..] + [def];
    }
  }

  function Get(vars: Variables, name: Name): Option<Value> {
    if name in vars then Some(vars[name]) else None
  }

  lemma {:induction false} WithDefaultsMeaning(defs: seq<VariableDefinition>, vars: Variables, name: Name)
    ensures Get(WithDefaults(defs, vars), name) == if name in vars then Some(vars[name]) else FirstDefault(defs, name)
  {
    if defs != [] {
      var n := |defs| - 1;
      WithDefaultsMeaning(defs[..n], vars, name);
      FirstDefaultSnoc(defs[..n], defs[n], name);
      assert defs == defs[..n] + [defs[n]];
    }
  }

  // ----- the two lookups, by index -----

  /** Definition `i` is the first one of that name. */
  predicate DefinedAt(defs: seq<VariableDefinition>, name: Name, i: nat) {
    i < |defs| && defs[i].name == name && forall j :: 0 <= j < i ==> defs[j].name != name
  }

  lemma {:induction false} VarValueMeaning(defs: seq<VariableDefinition>, vars: Variables, name: Name)
    ensures (forall i :: 0 <= i < |defs| ==> defs[i].name != name) <==> VarValue(defs, vars, name) == Err(name)
    ensures forall i: nat :: DefinedAt(defs, name, i) ==>
              VarValue(defs, vars, name) == Ok(if name in vars then Some(vars[name]) else defs[i].defaultValue)
    ensures VarValue(defs, vars, name).Ok? ==> exists i: nat :: DefinedAt(defs, name, i)
  {
    if defs != [] {
      var rest := defs[1..];
      VarValueMeaning(rest, vars, name);
      assert forall i :: 0 <= i < |rest| ==> rest[i] == defs[i + 1];
      assert forall i :: 1 <= i < |defs| ==> defs[i] == rest[i - 1];
      if defs[0].name == name {
        assert DefinedAt(defs, name, 0);
      } else {
        forall i: nat | DefinedAt(defs, name, i) ensures DefinedAt(rest, name, i - 1) {}
        if i: nat :| DefinedAt(rest, name, i) {
          assert DefinedAt(defs, name, i + 1);
        }
      }
    }
  }

  /** Definition `i` is the first one of that name with a default. */
  predicate DefaultAt(defs: seq<VariableDefinition>, name: Name, i: nat) {
    && i < |defs| && defs[i].name == name && defs[i].defaultValue.Some?
    && forall j :: 0 <= j < i ==> defs[j].name != name || defs[j].defaultValue.None?
  }

  /** In the completed map a variable has the supplied value, else the first default written for it, and
      else it is missing. */
  lemma CompletedMeaning(defs: seq<VariableDefinition>, vars: Variables, name: Name)
    ensures var completed := WithDefaults(defs, vars);
            && (name in vars ==> name in completed && completed[name] == vars[name])
            && (name !in vars ==> forall i: nat :: DefaultAt(defs, name, i) ==>
                  name in completed && completed[name] == defs[i].defaultValue.value)
            && (name !in vars && (forall i: nat :: !DefaultAt(defs, name, i)) ==> name !in completed)
  {
    WithDefaultsMeaning(defs, vars, name);
    FirstDefaultMeaning(defs, name);
  }

  lemma {:induction false} FirstDefaultMeaning(defs: seq<VariableDefinition>, name: Name)
    ensures forall i: nat :: DefaultAt(defs, name, i) ==> FirstDefault(defs, name) == defs[i].defaultValue
    ensures FirstDefault(defs, name).Some? ==> exists i: nat :: DefaultAt(defs, name, i)
  {
    if defs != [] {
      var rest := defs[1..];
      FirstDefaultMeaning(rest, name);
      assert forall i :: 0 <= i < |rest| ==> rest[i] == defs[i + 1];
      if defs[0].name == name && defs[0].defaultValue.Some? {
        assert DefaultAt(defs, name, 0);
      } else {
        forall i: nat | DefaultAt(defs, name, i) ensures i > 0 && DefaultAt(rest, name, i - 1) {}
        if i: nat :| DefaultAt(rest, name, i) {
          assert DefaultAt(defs, name, i + 1);
        }
      }
    }
  }

  ghost predicate UniqueDefinitions(defs: seq<VariableDefinition>) {
    forall i, j :: 0 <= i < j < |defs| ==> defs[i].name != defs[j].name
  }

  lemma {:induction false} FirstDefaultIsFirst(defs: seq<VariableDefinition>, name: Name)
    ensures FindDefinition(defs, name).None? ==> FirstDefault(defs, name).None?
    ensures FindDefinition(defs, name).Some? && FindDefinition(defs, name).value.defaultValue.Some? ==>
              FirstDefault(defs, name) == FindDefinition(defs, name).value.defaultValue
    ensures UniqueDefinitions(defs) && FindDefinition(defs, name).Some? ==>
              FirstDefault(defs, name) == FindDefinition(defs, name).value.defaultValue
    ensures FindDefinition(defs, name).None? <==> forall i :: 0 <= i < |defs| ==> defs[i].name != name
  {
    if defs != [] {
      FirstDefaultIsFirst(defs[1..], name);
      assert forall i :: 1 <= i < |defs| ==> defs[i] == defs[1..][i - 1];
      assert forall i :: 0 <= i < |defs[1..]| ==> defs[1..][i] == defs[i + 1];
    }
  }

  /** A defined variable has the same value in the completed map as through `var_value`, exactly when
      the request supplies it, its first definition has a default, or none of its definitions does. */
  lemma DefaultsAgree(defs: seq<VariableDefinition>, vars: Variables, name: Name)
    requires FindDefinition(defs, name).Some?
    ensures VarValue(defs, vars, name) == Ok(Get(WithDefaults(defs, vars), name)) <==>
            name in vars || FindDefinition(defs, name).value.defaultValue.Some? || FirstDefault(defs, name).None?
    ensures UniqueDefinitions(defs) ==> VarValue(defs, vars, name) == Ok(Get(WithDefaults(defs, vars), name))
  {
    WithDefaultsMeaning(defs, vars, name);
    FirstDefaultIsFirst(defs, name);
  }

  /** With two definitions of one variable the two can differ. */
  lemma DuplicateDefinitionsDiffer(name: Name, v: Value)
    ensures var defs := [VariableDefinition(name, None), VariableDefinition(name, Some(v))];
            VarValue(defs, map[], name) == Ok(None) && Get(WithDefaults(defs, map[]), name) == Some(v)
  {
    var defs := [VariableDefinition(name, None), VariableDefinition(name, Some(v))];
    WithDefaultsMeaning(defs, map[], name);
    assert defs[1..] == [VariableDefinition(name, Some(v))];
  }

  // ----- resolve_input_value_inner -----

  /** Replace the variables of a value.  An omitted variable makes the whole value, or the object
      field it stands in, disappear; inside a list it becomes null. */
  function Resolve(defs: seq<VariableDefinition>, vars: Variables, v: InputValue): Result<Option<Value>, Name>
    decreases v
  {
    match v
    case Variable(name) => VarValue(defs, vars, name)
    case NullInput => Ok(Some(Null))
    case NumberInput(n) => Ok(Some(Number(n)))
    case StringInput(t) => Ok(Some(String(t)))
    case BooleanInput(b) => Ok(Some(Boolean(b)))
    case BinaryInput(bs) => Ok(Some(Binary(bs)))
    case EnumInput(e) => Ok(Some(Enum(e)))
    case ListInput(items) =>
      (match ResolveItems(defs, vars, items)
       case Ok(vs) => Ok(Some(List(vs)))
       case Err(e) => Err(e))
    case ObjectInput(fields) =>
      (match ResolveFields(defs, vars, fields)
       case Ok(fs) => Ok(Some(Object(fs)))
       case Err(e) => Err(e))
  }

  function ResolveItems(defs: seq<VariableDefinition>, vars: Variables, items: seq<InputValue>)
    : Result<seq<Value>, Name>
    decreases items
  {
    if items == [] then Ok([])
    else
      match ResolveItems(defs, vars, items[..|items| - 1])
      case Err(e) => Err(e)
      case Ok(vs) =>
        match Resolve(defs, vars, items[|items| - 1])
        case Err(e) => Err(e)
        case Ok(v) => Ok(vs + [if v.Some? then v.value else Null])
  }

  function ResolveFields(defs: seq<VariableDefinition>, vars: Variables, fields: seq<Named<InputValue>>)
    : Result<seq<Named<Value>>, Name>
    decreases fields
  {
    if fields == [] then Ok([])
    else
      match ResolveFields(defs, vars, fields[..|fields| - 1])
      case Err(e) => Err(e)
      case Ok(fs) =>
        match Resolve(defs, vars, fields[|fields| - 1].value)
        case Err(e) => Err(e)
        case Ok(v) => Ok(fs + if v.Some? then [Named(fields[|fields| - 1].name, v.value)] else [])
  }

  // ----- what resolution means -----

  /** The variables a value mentions. */
  function Mentions(v: InputValue): set<Name>
    decreases v
  {
    match v
    case Variable(name) => {name}
    case ListInput(items) => MentionsItems(items)
    case ObjectInput(fields) => MentionsFields(fields)
    case _ => {}
  }

  function MentionsItems(items: seq<InputValue>): set<Name>
    decreases items
  {
    if items == [] then {} else MentionsItems(items[..|items| - 1]) + Mentions(items[|items| - 1])
  }

  function MentionsFields(fields: seq<Named<InputValue>>): set<Name>
    decreases fields
  {
    if fields == [] then {} else MentionsFields(fields[..|fields| - 1]) + Mentions(fields[|fields| - 1].value)
  }

  ghost predicate AllDefined(defs: seq<VariableDefinition>, names: set<Name>) {
    forall name :: name in names ==> FindDefinition(defs, name).Some?
  }

  /** Resolution fails exactly when the value mentions a variable that is not defined. */
  lemma {:induction false} FailsOnlyOnUndefined(defs: seq<VariableDefinition>, vars: Variables, v: InputValue)
    ensures Resolve(defs, vars, v).Ok? <==> AllDefined(defs, Mentions(v))
    decreases v
  {
    match v
    case ListInput(items) => ItemsFailOnlyOnUndefined(defs, vars, items);
    case ObjectInput(fields) => FieldsFailOnlyOnUndefined(defs, vars, fields);
    case _ =>
  }

  lemma {:induction false} ItemsFailOnlyOnUndefined(defs: seq<VariableDefinition>, vars: Variables,
                                                    items: seq<InputValue>)
    ensures ResolveItems(defs, vars, items).Ok? <==> AllDefined(defs, MentionsItems(items))
    decreases items
  {
    if items != [] {
      ItemsFailOnlyOnUndefined(defs, vars, items[..|items| - 1]);
      FailsOnlyOnUndefined(defs, vars, items[|items| - 1]);
    }
  }

  lemma {:induction false} FieldsFailOnlyOnUndefined(defs: seq<VariableDefinition>, vars: Variables,
                                                     fields: seq<Named<InputValue>>)
    ensures ResolveFields(defs, vars, fields).Ok? <==> AllDefined(defs, MentionsFields(fields))
    decreases fields
  {
    if fields != [] {
      FieldsFailOnlyOnUndefined(defs, vars, fields[..|fields| - 1]);
      FailsOnlyOnUndefined(defs, vars, fields[|fields| - 1].value);
    }
  }

  /** A constant written as an input value. */
  function Quote(v: Value): InputValue
    decreases v
  {
    match v
    case Null => NullInput
    case Number(n) => NumberInput(n)
    case String(t) => StringInput(t)
    case Boolean(b) => BooleanInput(b)
    case Binary(bs) => BinaryInput(bs)
    case Enum(e) => EnumInput(e)
    case List(items) => ListInput(QuoteItems(items))
    case Object(fields) => ObjectInput(QuoteFields(fields))
  }

  function QuoteItems(items: seq<Value>): seq<InputValue>
    decreases items
  {
    if items == [] then [] else QuoteItems(items[..|items| - 1]) + [Quote(items[|items| - 1])]
  }

  function QuoteFields(fields: seq<Named<Value>>): seq<Named<InputValue>>
    decreases fields
  {
    if fields == [] then []
    else QuoteFields(fields[..|fields| - 1]) + [Named(fields[|fields| - 1].name, Quote(fields[|fields| - 1].value))]
  }

  /** Resolving a constant gives it back unchanged, whatever the variables. */
  lemma {:induction false} ConstantsResolveToThemselves(defs: seq<VariableDefinition>, vars: Variables, v: Value)
    ensures Resolve(defs, vars, Quote(v)) == Ok(Some(v))
    decreases v
  {
    match v
    case List(items) => QuotedItemsResolve(defs, vars, items);
    case Object(fields) => QuotedFieldsResolve(defs, vars, fields);
    case _ =>
  }

  lemma {:induction false} QuotedItemsResolve(defs: seq<VariableDefinition>, vars: Variables, items: seq<Value>)
    ensures ResolveItems(defs, vars, QuoteItems(items)) == Ok(items)
    decreases items
  {
    if items != [] {
      var n := |items| - 1;
      QuotedItemsResolve(defs, vars, items[..n]);
      ConstantsResolveToThemselves(defs, vars, items[n]);
      assert QuoteItems(items)[..|QuoteItems(items)| - 1] == QuoteItems(items[..n]);
      assert items == items[..n] + [items[n]];
    }
  }

  lemma {:induction false} QuotedFieldsResolve(defs: seq<VariableDefinition>, vars: Variables,
                                               fields: seq<Named<Value>>)
    ensures ResolveFields(defs, vars, QuoteFields(fields)) == Ok(fields)
    decreases fields
  {
    if fields != [] {
      var n := |fields| - 1;
      QuotedFieldsResolve(defs, vars, fields[..n]);
      ConstantsResolveToThemselves(defs, vars, fields[n].value);
      assert QuoteFields(fields)[..|QuoteFields(fields)| - 1] == QuoteFields(fields[..n]);
      assert fields == fields[..n] + [fields[n]];
    }
  }

  /** A resolved list keeps its length and order; an omitted entry becomes null. */
  lemma {:induction false} ListsKeepTheirSlots(defs: seq<VariableDefinition>, vars: Variables, items: seq<InputValue>)
    requires ResolveItems(defs, vars, items).Ok?
    ensures var vs := ResolveItems(defs, vars, items).value;
            && |vs| == |items|
            && forall i :: 0 <= i < |items| ==>
                 && Resolve(defs, vars, items[i]).Ok?
                 && vs[i] == match Resolve(defs, vars, items[i]).value case Some(v) => v case None => Null
    decreases |items|
  {
    if items != [] {
      ListsKeepTheirSlots(defs, vars, items[..|items| - 1]);
      assert forall i :: 0 <= i < |items| - 1 ==> items[..|items| - 1][i] == items[i];
    }
  }

  /** The keys an object keeps: those whose value is not omitted, in order. */
  function KeptKeys(defs: seq<VariableDefinition>, vars: Variables, fields: seq<Named<InputValue>>): seq<Name> {
    if fields == [] then []
    else
      var Named(name, v) := fields[|fields| - 1];
      KeptKeys(defs, vars, fields[..|fields| - 1]) + if Resolve(defs, vars, v) == Ok(None) then [] else [name]
  }

  function Keys<T>(fields: seq<Named<T>>): seq<Name> {
    seq(|fields|, i requires 0 <= i < |fields| => fields[i].name)
  }

  lemma {:induction false} ObjectsKeepTheirKeys(defs: seq<VariableDefinition>, vars: Variables,
                                                fields: seq<Named<InputValue>>)
    requires ResolveFields(defs, vars, fields).Ok?
    ensures Keys(ResolveFields(defs, vars, fields).value) == KeptKeys(defs, vars, fields)
    ensures forall f :: f in ResolveFields(defs, vars, fields).value ==>
              exists g :: g in fields && g.name == f.name && Resolve(defs, vars, g.value) == Ok(Some(f.value))
    decreases |fields|
  {
    if fields != [] {
      var front, last := fields[..|fields| - 1], fields[|fields| - 1];
      ObjectsKeepTheirKeys(defs, vars, front);
      assert last in fields;
      forall f | f in ResolveFields(defs, vars, fields).value
        ensures exists g :: g in fields && g.name == f.name && Resolve(defs, vars, g.value) == Ok(Some(f.value))
      {
        if f in ResolveFields(defs, vars, front).value {
          var g :| g in front && g.name == f.name && Resolve(defs, vars, g.value) == Ok(Some(f.value));
          assert g in fields;
        }
      }
    }
  }

  // ----- resolving is substitution -----

  /** What a value becomes when its variables are replaced, omitted parts left out (section 3.10 of the
      GraphQL October 2021 specification): nothing for an omitted variable, null for an omitted entry of a
      list, and no field for an omitted field. */
  ghost predicate Becomes(defs: seq<VariableDefinition>, vars: Variables, v: InputValue, r: Option<Value>)
    decreases v, 0
  {
    match v
    case Variable(name) => VariableBecomes(defs, vars, name, r)
    case ListInput(items) =>
      && r.Some? && r.value.List? && |r.value.items| == |items|
      && forall i :: 0 <= i < |items| ==> ItemBecomes(defs, vars, items[i], r.value.items[i])
    case ObjectInput(fields) =>
      r.Some? && r.value.Object? && exists from: seq<nat> :: FieldsBecome(defs, vars, fields, from, r.value.fields)
    case _ => r == Some(Literal(v))
  }

  ghost predicate VariableBecomes(defs: seq<VariableDefinition>, vars: Variables, name: Name, r: Option<Value>) {
    exists i: nat :: DefinedAt(defs, name, i) && r == if name in vars then Some(vars[name]) else defs[i].defaultValue
  }

  function Literal(v: InputValue): Value {
    match v
    case NumberInput(n) => Number(n)
    case StringInput(t) => String(t)
    case BooleanInput(b) => Boolean(b)
    case BinaryInput(bs) => Binary(bs)
    case EnumInput(e) => Enum(e)
    case _ => Null
  }

  ghost predicate ItemBecomes(defs: seq<VariableDefinition>, vars: Variables, item: InputValue, v: Value)
    decreases item, 1
  {
    Becomes(defs, vars, item, Some(v)) || (v == Null && Becomes(defs, vars, item, None))
  }

  ghost predicate FieldBecomes(defs: seq<VariableDefinition>, vars: Variables, field: Named<InputValue>,
                               k: Named<Value>)
    decreases field, 0
  {
    k.name == field.name && Becomes(defs, vars, field.value, Some(k.value))
  }

  ghost predicate FieldOmitted(defs: seq<VariableDefinition>, vars: Variables, field: Named<InputValue>)
    decreases field, 0
  {
    Becomes(defs, vars, field.value, None)
  }

  /** The fields that are kept come, in order, from these indices, and all others are omitted. */
  ghost predicate FieldsBecome(defs: seq<VariableDefinition>, vars: Variables, fields: seq<Named<InputValue>>,
                               from: seq<nat>, kept: seq<Named<Value>>)
    decreases fields, 0
  {
    && |from| == |kept| && Ascending(from, |fields|)
    && (forall k :: 0 <= k < |from| ==> FieldBecomes(defs, vars, fields[from[k]], kept[k]))
    && (forall i :: 0 <= i < |fields| && i !in from ==> FieldOmitted(defs, vars, fields[i]))
  }

  /** Resolution is exactly that. */
  lemma {:induction false} ResolveIsSubstitution(defs: seq<VariableDefinition>, vars: Variables, v: InputValue,
                                                 r: Option<Value>)
    ensures Resolve(defs, vars, v) == Ok(r) <==> Becomes(defs, vars, v, r)
    decreases v, 1
  {
    match v
    case Variable(name) => VarValueMeaning(defs, vars, name);
    case ListInput(items) =>
      if r.Some? && r.value.List? {
        ResolveItemsIsSubstitution(defs, vars, items, r.value.items);
      }
    case ObjectInput(fields) =>
      if r.Some? && r.value.Object? {
        FieldsAreGathered(defs, vars, fields);
        if ResolveFields(defs, vars, fields) == Ok(r.value.fields) {
          var from := GatherPicks(FieldOutcomes(defs, vars, fields), r.value.fields);
          FieldsBecomeIffPicked(defs, vars, fields, from, r.value.fields);
        }
        if from: seq<nat> :| FieldsBecome(defs, vars, fields, from, r.value.fields) {
          FieldsBecomeIffPicked(defs, vars, fields, from, r.value.fields);
          PickedGathers(FieldOutcomes(defs, vars, fields), from, r.value.fields);
        }
      }
    case _ =>
  }

  /** One item, as the list takes it. */
  predicate ItemResolves(defs: seq<VariableDefinition>, vars: Variables, item: InputValue, v: Value) {
    Resolve(defs, vars, item) == Ok(Some(v)) || (v == Null && Resolve(defs, vars, item) == Ok(None))
  }

  lemma {:induction false} ResolveItemIsSubstitution(defs: seq<VariableDefinition>, vars: Variables,
                                                     item: InputValue, v: Value)
    ensures ItemBecomes(defs, vars, item, v) <==> ItemResolves(defs, vars, item, v)
    decreases item, 2
  {
    ResolveIsSubstitution(defs, vars, item, Some(v));
    ResolveIsSubstitution(defs, vars, item, None);
  }

  lemma {:induction false} ResolveItemsIsSubstitution(defs: seq<VariableDefinition>, vars: Variables,
                                                      items: seq<InputValue>, vs: seq<Value>)
    ensures ResolveItems(defs, vars, items) == Ok(vs) <==>
            |vs| == |items| && forall i :: 0 <= i < |items| ==> ItemBecomes(defs, vars, items[i], vs[i])
    decreases items, 0
  {
    forall i | 0 <= i < |items| && i < |vs|
      ensures ItemBecomes(defs, vars, items[i], vs[i]) <==> ItemResolves(defs, vars, items[i], vs[i])
    {
      ResolveItemIsSubstitution(defs, vars, items[i], vs[i]);
    }
    ResolveItemsEach(defs, vars, items, vs);
  }

  lemma {:induction false} ResolveItemsEach(defs: seq<VariableDefinition>, vars: Variables, items: seq<InputValue>,
                                            vs: seq<Value>)
    ensures ResolveItems(defs, vars, items) == Ok(vs) <==>
            |vs| == |items| && forall i :: 0 <= i < |items| ==> ItemResolves(defs, vars, items[i], vs[i])
    decreases |items|
  {
    if items != [] && vs != [] {
      var n, m := |items| - 1, |vs| - 1;
      ResolveItemsEach(defs, vars, items[..n], vs[..m]);
      ResolveItemsSnoc(defs, vars, items, vs);
      if |vs| == |items| {
        assert forall i :: 0 <= i < n ==> items[..n][i] == items[i] && vs[..m][i] == vs[i];
      }
    }
  }

  lemma ResolveItemsSnoc(defs: seq<VariableDefinition>, vars: Variables, items: seq<InputValue>, vs: seq<Value>)
    requires items != [] && vs != []
    ensures var n, m := |items| - 1, |vs| - 1;
            ResolveItems(defs, vars, items) == Ok(vs) <==>
            ResolveItems(defs, vars, items[..n]) == Ok(vs[..m]) && ItemResolves(defs, vars, items[n], vs[m])
  {
    var m := |vs| - 1;
    assert vs == vs[..m] + [vs[m]];
  }

  /** What each field contributes. */
  function FieldOutcomes(defs: seq<VariableDefinition>, vars: Variables, fields: seq<Named<InputValue>>)
    : seq<Result<Option<Named<Value>>, Name>>
  {
    seq(|fields|, i requires 0 <= i < |fields| =>
          match Resolve(defs, vars, fields[i].value)
          case Err(e) => Err(e)
          case Ok(None) => Ok(None)
          case Ok(Some(v)) => Ok(Some(Named(fields[i].name, v))))
  }

  lemma {:induction false} FieldsAreGathered(defs: seq<VariableDefinition>, vars: Variables,
                                             fields: seq<Named<InputValue>>)
    ensures ResolveFields(defs, vars, fields) == Gather(FieldOutcomes(defs, vars, fields))
    decreases |fields|
  {
    if fields != [] {
      var n := |fields| - 1;
      FieldsAreGathered(defs, vars, fields[..n]);
      assert FieldOutcomes(defs, vars, fields)[..n] == FieldOutcomes(defs, vars, fields[..n]);
    }
  }

  lemma {:induction false} FieldOutcomeIsSubstitution(defs: seq<VariableDefinition>, vars: Variables,
                                                      fields: seq<Named<InputValue>>, i: nat, k: Named<Value>)
    requires i < |fields|
    ensures FieldOutcomes(defs, vars, fields)[i] == Ok(Some(k)) <==> FieldBecomes(defs, vars, fields[i], k)
    ensures FieldOutcomes(defs, vars, fields)[i] == Ok(None) <==> FieldOmitted(defs, vars, fields[i])
    decreases fields, 0
  {
    ResolveIsSubstitution(defs, vars, fields[i].value, Some(k.value));
    ResolveIsSubstitution(defs, vars, fields[i].value, None);
    assert k == Named(k.name, k.value);
  }

  lemma {:induction false} FieldsBecomeIffPicked(defs: seq<VariableDefinition>, vars: Variables,
                                                 fields: seq<Named<InputValue>>, from: seq<nat>,
                                                 kept: seq<Named<Value>>)
    ensures FieldsBecome(defs, vars, fields, from, kept) <==>
            Picked(FieldOutcomes(defs, vars, fields), from, kept)
    decreases fields, 1
  {
    var outcomes := FieldOutcomes(defs, vars, fields);
    forall i, k | 0 <= i < |fields|
      ensures outcomes[i] == Ok(Some(k)) <==> FieldBecomes(defs, vars, fields[i], k)
    {
      FieldOutcomeIsSubstitution(defs, vars, fields, i, k);
    }
    forall i | 0 <= i < |fields| ensures outcomes[i] == Ok(None) <==> FieldOmitted(defs, vars, fields[i]) {
      FieldOutcomeIsSubstitution(defs, vars, fields, i, Named("", Null));
    }
    BecomeIffPicked(defs, vars, fields, outcomes, from, kept);
  }

  lemma BecomeIffPicked(defs: seq<VariableDefinition>, vars: Variables, fields: seq<Named<InputValue>>,
                        outcomes: seq<Result<Option<Named<Value>>, Name>>, from: seq<nat>, kept: seq<Named<Value>>)
    requires |outcomes| == |fields|
    requires forall i, k :: 0 <= i < |fields| ==>
               (outcomes[i] == Ok(Some(k)) <==> FieldBecomes(defs, vars, fields[i], k))
    requires forall i :: 0 <= i < |fields| ==> (outcomes[i] == Ok(None) <==> FieldOmitted(defs, vars, fields[i]))
    ensures FieldsBecome(defs, vars, fields, from, kept) <==> Picked(outcomes, from, kept)
  {}

  // ----- the loops of resolve_input_value_inner -----

  /** `IndexMap::insert`: a new key goes to the end, an old key keeps its place. */
  function Insert(fields: seq<Named<Value>>, name: Name, v: Value): seq<Named<Value>> {
    if fields == [] then [Named(name, v)]
    else if fields[0].name == name then [Named(name, v)] + fields[1..]
    else [fields[0]] + Insert(fields[1..], name, v)
  }

  lemma {:induction false} InsertNew(fields: seq<Named<Value>>, name: Name, v: Value)
    requires name !in Keys(fields)
    ensures Insert(fields, name, v) == fields + [Named(name, v)]
  {
    if fields != [] {
      assert Keys(fields)[0] == fields[0].name;
      assert Keys(fields)[1..] == Keys(fields[1..]);
      InsertNew(fields[1..], name, v);
    }
  }

  /** Input objects are index maps: at every depth their keys differ. */
  ghost predicate DistinctNames(v: InputValue)
    decreases v
  {
    match v
    case ListInput(items) => forall i :: 0 <= i < |items| ==> DistinctNames(items[i])
    case ObjectInput(fields) =>
      && (forall i, j :: 0 <= i < j < |fields| ==> fields[i].name != fields[j].name)
      && (forall i :: 0 <= i < |fields| ==> DistinctNames(fields[i].value))
    case _ => true
  }

  lemma {:induction false} KeptKeysAreKeys(defs: seq<VariableDefinition>, vars: Variables,
                                           fields: seq<Named<InputValue>>, name: Name)
    ensures name in KeptKeys(defs, vars, fields) ==> exists i :: 0 <= i < |fields| && fields[i].name == name
    decreases |fields|
  {
    if fields != [] {
      KeptKeysAreKeys(defs, vars, fields[..|fields| - 1], name);
    }
  }

  method ResolveInput(defs: seq<VariableDefinition>, vars: Variables, v: InputValue)
    returns (r: Result<Option<Value>, Name>)
    requires DistinctNames(v)
    ensures r == Resolve(defs, vars, v)
    decreases v
  {
    match v {
      case Variable(name) => r := VarValue(defs, vars, name);
      case NullInput => r := Ok(Some(Null));
      case NumberInput(n) => r := Ok(Some(Number(n)));
      case StringInput(t) => r := Ok(Some(String(t)));
      case BooleanInput(b) => r := Ok(Some(Boolean(b)));
      case BinaryInput(bs) => r := Ok(Some(Binary(bs)));
      case EnumInput(e) => r := Ok(Some(Enum(e)));
      case ListInput(items) => r := ResolveListInput(defs, vars, items, v);
      case ObjectInput(fields) => r := ResolveObjectInput(defs, vars, fields, v);
    }
  }

  method ResolveListInput(defs: seq<VariableDefinition>, vars: Variables, items: seq<InputValue>,
                          ghost whole: InputValue)
    returns (r: Result<Option<Value>, Name>)
    requires whole == ListInput(items) && DistinctNames(whole)
    ensures r == Resolve(defs, vars, whole)
    decreases whole, 0
  {
    var resolved: seq<Value> := [];
    for i := 0 to |items|
      invariant ResolveItems(defs, vars, items[..i]) == Ok(resolved)
    {
      assert items[..i + 1][..i] == items[..i];
      var item := ResolveInput(defs, vars, items[i]);
      if item.Err? {
        ItemsErrorKept(defs, vars, items, i + 1);
        return Err(item.error);
      }
      resolved := resolved + [if item.value.Some? then item.value.value else Null];
    }
    assert items[..|items|] == items;
    r := Ok(Some(List(resolved)));
  }

  lemma {:induction false} ItemsErrorKept(defs: seq<VariableDefinition>, vars: Variables, items: seq<InputValue>,
                                          i: nat)
    requires i <= |items| && ResolveItems(defs, vars, items[..i]).Err?
    ensures ResolveItems(defs, vars, items) == ResolveItems(defs, vars, items[..i])
    decreases |items| - i
  {
    if i < |items| {
      assert items[..i + 1][..i] == items[..i];
      ItemsErrorKept(defs, vars, items, i + 1);
    } else {
      assert items[..i] == items;
    }
  }

  method ResolveObjectInput(defs: seq<VariableDefinition>, vars: Variables, fields: seq<Named<InputValue>>,
                            ghost whole: InputValue)
    returns (r: Result<Option<Value>, Name>)
    requires whole == ObjectInput(fields) && DistinctNames(whole)
    ensures r == Resolve(defs, vars, whole)
    decreases whole, 0
  {
    var resolved: seq<Named<Value>> := [];
    for i := 0 to |fields|
      invariant ResolveFields(defs, vars, fields[..i]) == Ok(resolved)
    {
      assert fields[..i + 1][..i] == fields[..i];
      var Named(name, value) := fields[i];
      var v := ResolveInput(defs, vars, value);
      if v.Err? {
        FieldsErrorKept(defs, vars, fields, i + 1);
        return Err(v.error);
      }
      assert resolved + [] == resolved;
      if v.value.Some? {
        assert name !in Keys(resolved) by {
          ObjectsKeepTheirKeys(defs, vars, fields[..i]);
          KeptKeysAreKeys(defs, vars, fields[..i], name);
          assert forall j :: 0 <= j < i ==> fields[..i][j].name != name;
        }
        InsertNew(resolved, name, v.value.value);
        resolved := Insert(resolved, name, v.value.value);
      }
    }
    assert fields[..|fields|] == fields;
    r := Ok(Some(Object(resolved)));
  }

  lemma {:induction false} FieldsErrorKept(defs: seq<VariableDefinition>, vars: Variables,
                                           fields: seq<Named<InputValue>>, i: nat)
    requires i <= |fields| && ResolveFields(defs, vars, fields[..i]).Err?
    ensures ResolveFields(defs, vars, fields) == ResolveFields(defs, vars, fields[..i])
    decreases |fields| - i
  {
    if i < |fields| {
      assert fields[..i + 1][..i] == fields[..i];
      FieldsErrorKept(defs, vars, fields, i + 1);
    } else {
      assert fields[..i] == fields;
    }
  }
}
