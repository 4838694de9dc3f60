/** What completion returns, and when it succeeds, told from the resolver's values. */
module CompletionMeaning {
  import opened Wrappers
  import opened Gathering
  import opened Document
  import opened Walks
  import opened TypeRefs
  import opened DynamicSchema
  import opened SkipInclude
  import opened Completion

  predicate IsNull(value: Option<FieldValue>) {
    value.None? || value == Some(Const(Null))
  }

  /** The entries of a resolver's list. */
  function Parts(value: FieldValue): Option<seq<FieldValue>> {
    match value
    case Values(vs) => Some(vs)
    case Const(List(vs)) => Some(seq(|vs|, i requires 0 <= i < |vs| => Const(vs[i])))
    case _ => None
  }

  predicate IsObject(schema: Schema, n: Name) {
    n in schema.types && schema.types[n].ObjectType?
  }

  /** A value tagged with an object that the interface or union stands for. */
  predicate TaggedFor(schema: Schema, name: Name, value: FieldValue)
    requires name in schema.types
  {
    && value.WithType? && IsObject(schema, value.ty)
    && match schema.types[name]
       case InterfaceType(_, _) => name in schema.possible && value.ty in schema.possible[name]
       case UnionType(members) => value.ty in members
       case _ => false
  }

  // ----- the selected fields of an object -----

  /** A fragment without a condition, or with one that the object meets. */
  function AppliesTo(env: Env, obj: Name): Selection -> bool {
    (s: Selection) =>
      match s
      case Field(_, _, _, _, _) => false
      case FragmentSpread(name, _) => name in env.frags && StandsFor(env.schema, env.frags[name].condition, obj)
      case InlineFragment(condition, _, _) => condition.None? || StandsFor(env.schema, condition.value, obj)
  }

  predicate StandsFor(schema: Schema, condition: Name, obj: Name) {
    condition in schema.possible && obj in schema.possible[condition]
  }

  ghost function SelectedFields(env: Env, obj: Name, items: seq<Selection>, depth: nat): seq<Selection>
    requires Bounded(env.frags, items, depth)
  {
    Walk(env.frags, items, AppliesTo(env, obj), IsField(), depth)
  }

  /** No spread of an unknown fragment is met. */
  ghost predicate AllKnown(env: Env, obj: Name, items: seq<Selection>, depth: nat)
    requires Bounded(env.frags, items, depth)
  {
    Walk(env.frags, items, AppliesTo(env, obj), IsUnknown(env.frags), depth) == []
  }

  lemma CollectedIsSelected(env: Env, obj: Name, items: seq<Selection>, depth: nat)
    requires Bounded(env.frags, items, depth)
    ensures var collected := Collect(env.frags, items, Applies(env.schema, obj), depth);
            && (collected.Ok? <==> AllKnown(env, obj, items, depth))
            && (collected.Ok? ==>
                  && collected.value == SelectedFields(env, obj, items, depth)
                  && AllFit(env.frags, collected.value, depth))
  {
    var enter := Applicable(env.frags, Applies(env.schema, obj));
    CollectIsWalk(env.frags, items, Applies(env.schema, obj), depth);
    WalkSame(env.frags, items, AppliesTo(env, obj), enter, IsField(), depth);
    WalkSame(env.frags, items, AppliesTo(env, obj), enter, IsUnknown(env.frags), depth);
    WalkKeeps(env.frags, items, enter, IsUnknown(env.frags), depth);
    CollectedFit(env.frags, items, Applies(env.schema, obj), depth);
  }

  function Below(depth: nat): nat {
    if depth > 0 then depth - 1 else 0
  }

  // ----- what a completed value shows -----

  /** The completed value shows exactly what the resolver gave: null for null and for nothing else, list
      entry by list entry, the same constant for a scalar and the same item for an enum, an object of the
      tag, and in it for each selected field what the resolver of that field gave. */
  ghost predicate Shows(env: Env, ty: TypeRef, value: Option<FieldValue>, items: seq<Selection>, depth: nat,
                        r: Completed)
    requires CheckTypesExist(env.schema) && TypeName(ty) in env.schema.types && Bounded(env.frags, items, depth)
    decreases Measure(items, depth), Layers(ty), 1, 0
  {
    match ty
    case NonNull(inner) => !r.CNull? && Shows(env, inner, value, items, depth, r)
    case ListOf(inner) =>
      if IsNull(value) then r.CNull?
      else
        && Parts(value.value).Some? && r.CList? && |r.items| == |Parts(value.value).value|
        && forall i :: 0 <= i < |r.items| ==>
             Shows(env, inner, Some(Parts(value.value).value[i]), items, depth, r.items[i])
    case NamedType(name) => if value.None? then r.CNull? else ShowsNamed(env, name, value.value, items, depth, r)
  }

  ghost predicate ShowsNamed(env: Env, name: Name, value: FieldValue, items: seq<Selection>, depth: nat, r: Completed)
    requires CheckTypesExist(env.schema) && name in env.schema.types && Bounded(env.frags, items, depth)
    decreases Measure(items, depth), 1, 0, 0
  {
    match env.schema.types[name]
    case ScalarType(validator) =>
      value.Const? &&
      if value.value.Null? then r.CNull? else Validates(validator, value.value) && r == CLeaf(value.value)
    case EnumType(values) =>
      value.Const? &&
      if value.value.Null? then r.CNull?
      else r.CEnum? && r.item in values && (value.value == Enum(r.item) || value.value == String(r.item))
    case ObjectType(_, _) => ShowsObject(env, name, value, items, depth, r)
    case InterfaceType(_, _) =>
      TaggedFor(env.schema, name, value) && ShowsObject(env, value.ty, value.tagged, items, depth, r)
    case UnionType(_) =>
      TaggedFor(env.schema, name, value) && ShowsObject(env, value.ty, value.tagged, items, depth, r)
    case _ => false
  }

  ghost predicate ShowsObject(env: Env, obj: Name, parent: FieldValue, items: seq<Selection>, depth: nat, r: Completed)
    requires CheckTypesExist(env.schema) && IsObject(env.schema, obj) && Bounded(env.frags, items, depth)
    decreases Measure(items, depth), 0, 1, 0
  {
    && r.CObject? && r.ty == obj && AllKnown(env, obj, items, depth)
    && if items == [] then r.entries == []
       else
         CollectedIsSelected(env, obj, items, depth);
         ShowsSome(env, obj, parent, SelectedFields(env, obj, items, depth), depth, r.entries)
  }

  /** The entries come, in order, from some of these fields; the object has none of the others. */
  ghost predicate ShowsSome(env: Env, obj: Name, parent: FieldValue, fields: seq<Selection>, depth: nat,
                            entries: seq<Entry>)
    requires CheckTypesExist(env.schema) && IsObject(env.schema, obj) && AllFit(env.frags, fields, depth)
    decreases depth + 1, 0, 0, 2
  {
    exists from: seq<nat> :: ShowsFields(env, obj, parent, fields, depth, from, entries)
  }

  /** The entries come, in order, from the fields at these indices. */
  ghost predicate ShowsFields(env: Env, obj: Name, parent: FieldValue, fields: seq<Selection>, depth: nat,
                              from: seq<nat>, entries: seq<Entry>)
    requires CheckTypesExist(env.schema) && IsObject(env.schema, obj) && AllFit(env.frags, fields, depth)
    decreases depth + 1, 0, 0, 1
  {
    && |from| == |entries| && Ascending(from, |fields|)
    && (forall k :: 0 <= k < |from| ==> ShowsField(env, obj, parent, fields[from[k]], depth, entries[k]))
    && (forall i :: 0 <= i < |fields| && i !in from ==> IsAbsent(env, obj, fields[i]))
  }

  predicate IsAbsent(env: Env, obj: Name, field: Selection)
    requires IsObject(env.schema, obj) && field.Field?
  {
    field.name != "__typename" && !env.introspectionOnly && field.name !in env.schema.types[obj].fields
  }

  ghost predicate ShowsField(env: Env, obj: Name, parent: FieldValue, field: Selection, depth: nat, e: Entry)
    requires CheckTypesExist(env.schema) && IsObject(env.schema, obj) && Fits(env.frags, field, depth)
    decreases depth + 1, 0, 0, 0
  {
    && e.key == (if field.alias.Some? then field.alias.value else field.name) && e.field == field.name
    && if field.name == "__typename" then e.value == CLeaf(String(obj))
       else if env.introspectionOnly then e.value == CNull
       else
         && field.name in env.schema.types[obj].fields && env.resolver(obj, field, parent).Ok?
         && assert TypeExists(env.schema, env.schema.types[obj]);
            Shows(env, env.schema.types[obj].fields[field.name].ty, env.resolver(obj, field, parent).value, field.items,
                  Below(depth), e.value)
  }

  // ----- completion is exactly that -----

  /** An outcome gives this value; nothing is read as null, and is never written as one. */
  predicate Gives(o: Outcome, r: Completed) {
    o.Ok? && o.value != Some(CNull) && OrNull(o.value) == r
  }

  /** Completion succeeds with a value exactly when that value shows what the resolvers gave. */
  lemma {:induction false} ResolveShows(env: Env, ty: TypeRef, value: Option<FieldValue>, items: seq<Selection>,
                                        depth: nat, r: Completed)
    requires CheckTypesExist(env.schema) && TypeName(ty) in env.schema.types && Bounded(env.frags, items, depth)
    ensures Gives(Resolve(env, ty, value, items, depth), r) <==> Shows(env, ty, value, items, depth, r)
    ensures Resolve(env, ty, value, items, depth) != Ok(Some(CNull))
    decreases Measure(items, depth), Layers(ty), 1, 0
  {
    match ty
    case NonNull(inner) => ResolveShows(env, inner, value, items, depth, r);
    case ListOf(inner) =>
      if !IsNull(value) && Parts(value.value).Some? && r.CList? {
        var vs := Parts(value.value).value;
        assert Resolve(env, ty, value, items, depth) == ListOutcome(ResolveList(env, inner, vs, items, depth));
        ResolveListEach(env, inner, vs, items, depth, r.items);
        forall i | 0 <= i < |vs| && i < |r.items|
          ensures Gives(Resolve(env, inner, Some(vs[i]), items, depth), r.items[i]) <==>
                  Shows(env, inner, Some(vs[i]), items, depth, r.items[i])
          ensures Resolve(env, inner, Some(vs[i]), items, depth) != Ok(Some(CNull))
        {
          ResolveShows(env, inner, Some(vs[i]), items, depth, r.items[i]);
        }
      }
    case NamedType(name) =>
      if value.Some? {
        ResolveNamedShows(env, name, value.value, items, depth, r);
      }
  }

  predicate Holds(o: Outcome, r: Completed) {
    o.Ok? && OrNull(o.value) == r
  }

  function EntryOf(o: Outcome): Result<Completed, ErrorTag> {
    match o
    case Ok(v) => Ok(OrNull(v))
    case Err(e) => Err(e)
  }

  /** What each value of a list completes to. */
  function EntryOutcomes(env: Env, ty: TypeRef, values: seq<FieldValue>, items: seq<Selection>, ghost depth: nat)
    : seq<Result<Completed, ErrorTag>>
    requires CheckTypesExist(env.schema) && TypeName(ty) in env.schema.types && Bounded(env.frags, items, depth)
  {
    seq(|values|, i requires 0 <= i < |values| => EntryOf(Resolve(env, ty, Some(values[i]), items, depth)))
  }

  lemma {:induction false} ListIsGathered(env: Env, ty: TypeRef, values: seq<FieldValue>, items: seq<Selection>,
                                          depth: nat)
    requires CheckTypesExist(env.schema) && TypeName(ty) in env.schema.types && Bounded(env.frags, items, depth)
    ensures ResolveList(env, ty, values, items, depth) == AllOk(EntryOutcomes(env, ty, values, items, depth))
    decreases |values|
  {
    if values != [] {
      var n := |values| - 1;
      ListIsGathered(env, ty, values[..n], items, depth);
      assert EntryOutcomes(env, ty, values, items, depth)[..n] == EntryOutcomes(env, ty, values[..n], items, depth);
    }
  }

  lemma ResolveListEach(env: Env, ty: TypeRef, values: seq<FieldValue>, items: seq<Selection>, depth: nat,
                        rs: seq<Completed>)
    requires CheckTypesExist(env.schema) && TypeName(ty) in env.schema.types && Bounded(env.frags, items, depth)
    ensures ResolveList(env, ty, values, items, depth) == Ok(rs) <==>
            |rs| == |values| && forall i :: 0 <= i < |rs| ==>
              Holds(Resolve(env, ty, Some(values[i]), items, depth), rs[i])
    ensures ResolveList(env, ty, values, items, depth).Ok? <==>
            forall i :: 0 <= i < |values| ==> Resolve(env, ty, Some(values[i]), items, depth).Ok?
  {
    var outcomes := EntryOutcomes(env, ty, values, items, depth);
    ListIsGathered(env, ty, values, items, depth);
    AllOkEach(outcomes, rs);
    assert forall i :: 0 <= i < |values| ==> outcomes[i] == EntryOf(Resolve(env, ty, Some(values[i]), items, depth));
  }

  lemma {:induction false} ResolveNamedShows(env: Env, name: Name, value: FieldValue, items: seq<Selection>, depth: nat,
                                             r: Completed)
    requires CheckTypesExist(env.schema) && name in env.schema.types && Bounded(env.frags, items, depth)
    ensures Gives(ResolveValue(env, name, value, items, depth), r) <==> ShowsNamed(env, name, value, items, depth, r)
    ensures ResolveValue(env, name, value, items, depth) != Ok(Some(CNull))
    decreases Measure(items, depth), 1, 0, 0
  {
    var def := env.schema.types[name];
    if def.ObjectType? {
      ResolveObjectShows(env, name, value, items, depth, r);
    } else if TaggedFor(env.schema, name, value) {
      ResolveObjectShows(env, value.ty, value.tagged, items, depth, r);
    }
  }

  lemma {:induction false} ResolveObjectShows(env: Env, obj: Name, parent: FieldValue, items: seq<Selection>,
                                              depth: nat, r: Completed)
    requires CheckTypesExist(env.schema) && IsObject(env.schema, obj) && Bounded(env.frags, items, depth)
    ensures Gives(ResolveContainer(env, obj, parent, items, depth), r) <==>
            ShowsObject(env, obj, parent, items, depth, r)
    ensures ResolveContainer(env, obj, parent, items, depth) != Ok(Some(CNull))
    decreases Measure(items, depth), 0, 1, 0
  {
    ContainerGivesObject(env, obj, parent, items, depth);
    GivesObject(ResolveContainer(env, obj, parent, items, depth), obj, r);
    if AllKnown(env, obj, items, depth) && r.CObject? && r.ty == obj {
      var CObject(_, entries) := r;
      ContainerIsFields(env, obj, parent, items, depth, entries);
      ObjectShowsFields(env, obj, parent, items, depth, entries);
      if items != [] {
        ResolveFieldsShow(env, obj, parent, SelectedFields(env, obj, items, depth), depth, entries);
      } else {
        assert SelectedFields(env, obj, items, depth) == [];
        assert ResolveFields(env, obj, parent, [], depth) == Ok([]);
      }
    }
  }

  lemma ObjectShowsFields(env: Env, obj: Name, parent: FieldValue, items: seq<Selection>, depth: nat,
                          entries: seq<Entry>)
    requires CheckTypesExist(env.schema) && IsObject(env.schema, obj) && Bounded(env.frags, items, depth)
    requires AllKnown(env, obj, items, depth) && AllFit(env.frags, SelectedFields(env, obj, items, depth), depth)
    ensures ShowsObject(env, obj, parent, items, depth, CObject(obj, entries)) <==>
            if items == [] then entries == []
            else ShowsSome(env, obj, parent, SelectedFields(env, obj, items, depth), depth, entries)
  {}

  lemma GivesObject(o: Outcome, obj: Name, r: Completed)
    requires o.Ok? ==> o.value.Some? && o.value.value.CObject? && o.value.value.ty == obj
    ensures Gives(o, r) <==> o == Ok(Some(r))
    ensures Gives(o, r) ==> r.CObject? && r.ty == obj
  {}

  lemma ContainerGivesObject(env: Env, obj: Name, parent: FieldValue, items: seq<Selection>, depth: nat)
    requires CheckTypesExist(env.schema) && IsObject(env.schema, obj) && Bounded(env.frags, items, depth)
    ensures var r := ResolveContainer(env, obj, parent, items, depth);
            && (r.Ok? ==> r.value.Some? && r.value.value.CObject? && r.value.value.ty == obj)
            && (r.Ok? ==> AllKnown(env, obj, items, depth))
  {
    CollectedIsSelected(env, obj, items, depth);
  }

  lemma ContainerIsFields(env: Env, obj: Name, parent: FieldValue, items: seq<Selection>, depth: nat,
                          entries: seq<Entry>)
    requires CheckTypesExist(env.schema) && IsObject(env.schema, obj) && Bounded(env.frags, items, depth)
    requires AllKnown(env, obj, items, depth)
    ensures AllFit(env.frags, SelectedFields(env, obj, items, depth), depth)
    ensures ResolveContainer(env, obj, parent, items, depth) == Ok(Some(CObject(obj, entries))) <==>
            ResolveFields(env, obj, parent, SelectedFields(env, obj, items, depth), depth) == Ok(entries)
  {
    CollectedIsSelected(env, obj, items, depth);
    CollectedFit(env.frags, items, Applies(env.schema, obj), depth);
  }

  function Outcomes(env: Env, obj: Name, parent: FieldValue, fields: seq<Selection>, ghost depth: nat)
    : seq<Result<Option<Entry>, ErrorTag>>
    requires CheckTypesExist(env.schema) && IsObject(env.schema, obj) && AllFit(env.frags, fields, depth)
  {
    seq(|fields|, i requires 0 <= i < |fields| && Fits(env.frags, fields[i], depth) =>
          ResolveField(env, obj, parent, fields[i], depth))
  }

  lemma {:induction false} FieldsAreGathered(env: Env, obj: Name, parent: FieldValue, fields: seq<Selection>,
                                             depth: nat)
    requires CheckTypesExist(env.schema) && IsObject(env.schema, obj) && AllFit(env.frags, fields, depth)
    ensures ResolveFields(env, obj, parent, fields, depth) == Gather(Outcomes(env, obj, parent, fields, depth))
    decreases |fields|
  {
    if fields != [] {
      var n := |fields| - 1;
      FieldsAreGathered(env, obj, parent, fields[..n], depth);
      assert Outcomes(env, obj, parent, fields, depth)[..n] == Outcomes(env, obj, parent, fields[..n], depth);
    }
  }

  lemma {:induction false} ResolveFieldsShow(env: Env, obj: Name, parent: FieldValue, fields: seq<Selection>,
                                             depth: nat, entries: seq<Entry>)
    requires CheckTypesExist(env.schema) && IsObject(env.schema, obj) && AllFit(env.frags, fields, depth)
    ensures ResolveFields(env, obj, parent, fields, depth) == Ok(entries) <==>
            ShowsSome(env, obj, parent, fields, depth, entries)
    decreases depth + 1, 0, 0, 1
  {
    var outcomes := Outcomes(env, obj, parent, fields, depth);
    FieldsAreGathered(env, obj, parent, fields, depth);
    forall i, e | 0 <= i < |fields|
      ensures outcomes[i] == Ok(Some(e)) <==> ShowsField(env, obj, parent, fields[i], depth, e)
    {
      ResolveFieldShows(env, obj, parent, fields[i], depth, e);
    }
    forall i | 0 <= i < |fields| ensures outcomes[i] == Ok(None) <==> IsAbsent(env, obj, fields[i]) {
      ResolveFieldShows(env, obj, parent, fields[i], depth, Entry("", "", CNull));
    }
    if Gather(outcomes) == Ok(entries) {
      var from := GatherPicks(outcomes, entries);
      ShownIffPicked(env, obj, parent, fields, depth, outcomes, from, entries);
    }
    if from: seq<nat> :| ShowsFields(env, obj, parent, fields, depth, from, entries) {
      ShownIffPicked(env, obj, parent, fields, depth, outcomes, from, entries);
      PickedGathers(outcomes, from, entries);
    }
  }

  lemma ShownIffPicked(env: Env, obj: Name, parent: FieldValue, fields: seq<Selection>, depth: nat,
                       outcomes: seq<Result<Option<Entry>, ErrorTag>>, from: seq<nat>, entries: seq<Entry>)
    requires CheckTypesExist(env.schema) && IsObject(env.schema, obj) && AllFit(env.frags, fields, depth)
    requires |outcomes| == |fields|
    requires forall i, e :: 0 <= i < |fields| ==>
               (outcomes[i] == Ok(Some(e)) <==> ShowsField(env, obj, parent, fields[i], depth, e))
    requires forall i :: 0 <= i < |fields| ==> (outcomes[i] == Ok(None) <==> IsAbsent(env, obj, fields[i]))
    ensures ShowsFields(env, obj, parent, fields, depth, from, entries) <==> Picked(outcomes, from, entries)
  {}

  lemma {:induction false} ResolveFieldShows(env: Env, obj: Name, parent: FieldValue, field: Selection, depth: nat,
                                             e: Entry)
    requires CheckTypesExist(env.schema) && IsObject(env.schema, obj) && Fits(env.frags, field, depth)
    ensures ResolveField(env, obj, parent, field, depth) == Ok(Some(e)) <==>
            ShowsField(env, obj, parent, field, depth, e)
    ensures ResolveField(env, obj, parent, field, depth) == Ok(None) <==> IsAbsent(env, obj, field)
    decreases depth + 1, 0, 0, 0
  {
    var defs := env.schema.types[obj].fields;
    if field.name != "__typename" && !env.introspectionOnly && field.name in defs {
      assert TypeExists(env.schema, env.schema.types[obj]);
      var resolved := env.resolver(obj, field, parent);
      if resolved.Ok? {
        ResolveShows(env, defs[field.name].ty, resolved.value, field.items, Below(depth), e.value);
      }
    }
  }

  // ----- exactly when completion succeeds -----

  /** Completion at this type gives null. */
  predicate NullAt(schema: Schema, ty: TypeRef, value: Option<FieldValue>)
    requires TypeName(ty) in schema.types
  {
    match ty
    case NonNull(_) => false
    case ListOf(_) => IsNull(value)
    case NamedType(name) =>
      value.None? || (value == Some(Const(Null)) && (schema.types[name].ScalarType? || schema.types[name].EnumType?))
  }

  /** Nothing stands in the way: no null under non-null, lists for lists, valid scalars and enum items,
      permitted tags, known fragments, and resolvers that succeed, at every depth. */
  ghost predicate Completes(env: Env, ty: TypeRef, value: Option<FieldValue>, items: seq<Selection>, depth: nat)
    requires CheckTypesExist(env.schema) && TypeName(ty) in env.schema.types && Bounded(env.frags, items, depth)
    decreases Measure(items, depth), Layers(ty), 1, 0
  {
    match ty
    case NonNull(inner) => !NullAt(env.schema, inner, value) && Completes(env, inner, value, items, depth)
    case ListOf(inner) =>
      IsNull(value) ||
      (Parts(value.value).Some? &&
       forall i :: 0 <= i < |Parts(value.value).value| ==>
         Completes(env, inner, Some(Parts(value.value).value[i]), items, depth))
    case NamedType(name) => value.None? || CompletesNamed(env, name, value.value, items, depth)
  }

  ghost predicate CompletesNamed(env: Env, name: Name, value: FieldValue, items: seq<Selection>, depth: nat)
    requires CheckTypesExist(env.schema) && name in env.schema.types && Bounded(env.frags, items, depth)
    decreases Measure(items, depth), 1, 0, 0
  {
    match env.schema.types[name]
    case ScalarType(validator) => value.Const? && (value.value.Null? || Validates(validator, value.value))
    case EnumType(values) =>
      && value.Const?
      && (value.value.Null? || (value.value.Enum? && value.value.item in values)
          || (value.value.String? && value.value.text in values))
    case ObjectType(_, _) => CompletesObject(env, name, value, items, depth)
    case InterfaceType(_, _) =>
      TaggedFor(env.schema, name, value) && CompletesObject(env, value.ty, value.tagged, items, depth)
    case UnionType(_) =>
      TaggedFor(env.schema, name, value) && CompletesObject(env, value.ty, value.tagged, items, depth)
    case _ => false
  }

  ghost predicate CompletesObject(env: Env, obj: Name, parent: FieldValue, items: seq<Selection>, depth: nat)
    requires CheckTypesExist(env.schema) && IsObject(env.schema, obj) && Bounded(env.frags, items, depth)
    decreases Measure(items, depth), 0, 1, 0
  {
    && AllKnown(env, obj, items, depth)
    && (CollectedIsSelected(env, obj, items, depth);
        items == [] || CompletesFields(env, obj, parent, SelectedFields(env, obj, items, depth), depth))
  }

  ghost predicate CompletesFields(env: Env, obj: Name, parent: FieldValue, fields: seq<Selection>, depth: nat)
    requires CheckTypesExist(env.schema) && IsObject(env.schema, obj) && AllFit(env.frags, fields, depth)
    decreases depth + 1, 0, 0, 1
  {
    forall i :: 0 <= i < |fields| ==> CompletesField(env, obj, parent, fields[i], depth)
  }

  ghost predicate CompletesField(env: Env, obj: Name, parent: FieldValue, field: Selection, depth: nat)
    requires CheckTypesExist(env.schema) && IsObject(env.schema, obj) && Fits(env.frags, field, depth)
    decreases depth + 1, 0, 0, 0
  {
    field.name == "__typename" || env.introspectionOnly || field.name !in env.schema.types[obj].fields ||
    (env.resolver(obj, field, parent).Ok? &&
     assert TypeExists(env.schema, env.schema.types[obj]);
     Completes(env, env.schema.types[obj].fields[field.name].ty, env.resolver(obj, field, parent).value, field.items,
               Below(depth)))
  }

  /** Completion succeeds exactly when nothing stands in its way, and then it gives null exactly for null. */
  lemma {:induction false} ResolveCompletes(env: Env, ty: TypeRef, value: Option<FieldValue>, items: seq<Selection>,
                                            depth: nat)
    requires CheckTypesExist(env.schema) && TypeName(ty) in env.schema.types && Bounded(env.frags, items, depth)
    ensures Resolve(env, ty, value, items, depth).Ok? <==> Completes(env, ty, value, items, depth)
    ensures Resolve(env, ty, value, items, depth).Ok? ==>
              (Resolve(env, ty, value, items, depth).value.None? <==> NullAt(env.schema, ty, value))
    decreases Measure(items, depth), Layers(ty), 1, 0
  {
    match ty
    case NonNull(inner) => ResolveCompletes(env, inner, value, items, depth);
    case ListOf(inner) =>
      if !IsNull(value) && Parts(value.value).Some? {
        var vs := Parts(value.value).value;
        assert Resolve(env, ty, value, items, depth) == ListOutcome(ResolveList(env, inner, vs, items, depth));
        ResolveListEach(env, inner, vs, items, depth, []);
        forall i | 0 <= i < |vs|
          ensures Resolve(env, inner, Some(vs[i]), items, depth).Ok? <==>
                  Completes(env, inner, Some(vs[i]), items, depth)
        {
          ResolveCompletes(env, inner, Some(vs[i]), items, depth);
        }
      }
    case NamedType(name) =>
      if value.Some? {
        ResolveNamedCompletes(env, name, value.value, items, depth);
      }
  }

  lemma {:induction false} ResolveNamedCompletes(env: Env, name: Name, value: FieldValue, items: seq<Selection>,
                                                 depth: nat)
    requires CheckTypesExist(env.schema) && name in env.schema.types && Bounded(env.frags, items, depth)
    ensures ResolveValue(env, name, value, items, depth).Ok? <==> CompletesNamed(env, name, value, items, depth)
    ensures ResolveValue(env, name, value, items, depth).Ok? ==>
              (ResolveValue(env, name, value, items, depth).value.None? <==>
               NullAt(env.schema, NamedType(name), Some(value)))
    decreases Measure(items, depth), 1, 0, 0
  {
    if env.schema.types[name].ObjectType? {
      ResolveObjectCompletes(env, name, value, items, depth);
    } else if TaggedFor(env.schema, name, value) {
      ResolveObjectCompletes(env, value.ty, value.tagged, items, depth);
    }
  }

  lemma {:induction false} ResolveObjectCompletes(env: Env, obj: Name, parent: FieldValue, items: seq<Selection>,
                                                  depth: nat)
    requires CheckTypesExist(env.schema) && IsObject(env.schema, obj) && Bounded(env.frags, items, depth)
    ensures ResolveContainer(env, obj, parent, items, depth).Ok? <==> CompletesObject(env, obj, parent, items, depth)
    ensures ResolveContainer(env, obj, parent, items, depth).Ok? ==>
              ResolveContainer(env, obj, parent, items, depth).value.Some?
    decreases Measure(items, depth), 0, 1, 0
  {
    CollectedIsSelected(env, obj, items, depth);
    CollectedFit(env.frags, items, Applies(env.schema, obj), depth);
    if AllKnown(env, obj, items, depth) && items != [] {
      ResolveFieldsComplete(env, obj, parent, SelectedFields(env, obj, items, depth), depth);
    }
  }

  lemma {:induction false} ResolveFieldsComplete(env: Env, obj: Name, parent: FieldValue, fields: seq<Selection>,
                                                 depth: nat)
    requires CheckTypesExist(env.schema) && IsObject(env.schema, obj) && AllFit(env.frags, fields, depth)
    ensures ResolveFields(env, obj, parent, fields, depth).Ok? <==> CompletesFields(env, obj, parent, fields, depth)
    decreases depth + 1, 0, 0, 1
  {
    FieldsAreGathered(env, obj, parent, fields, depth);
    GatherOk(Outcomes(env, obj, parent, fields, depth));
    forall i | 0 <= i < |fields|
      ensures Outcomes(env, obj, parent, fields, depth)[i].Ok? <==> CompletesField(env, obj, parent, fields[i], depth)
    {
      ResolveFieldCompletes(env, obj, parent, fields[i], depth);
    }
  }

  lemma {:induction false} ResolveFieldCompletes(env: Env, obj: Name, parent: FieldValue, field: Selection, depth: nat)
    requires CheckTypesExist(env.schema) && IsObject(env.schema, obj) && Fits(env.frags, field, depth)
    ensures ResolveField(env, obj, parent, field, depth).Ok? <==> CompletesField(env, obj, parent, field, depth)
    decreases depth + 1, 0, 0, 0
  {
    var defs := env.schema.types[obj].fields;
    if field.name != "__typename" && !env.introspectionOnly && field.name in defs {
      assert TypeExists(env.schema, env.schema.types[obj]);
      var resolved := env.resolver(obj, field, parent);
      if resolved.Ok? {
        ResolveCompletes(env, defs[field.name].ty, resolved.value, field.items, Below(depth));
      }
    }
  }
}
