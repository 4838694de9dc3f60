/** Completing resolver values against the types of a dynamic schema. */
module Completion {
  import opened Wrappers
  import opened Document
  import opened TypeRefs
  import opened DynamicSchema
  import opened InputObjects
  import opened SkipInclude

  /** What a resolver returns: a constant, an opaque host value, a list, or a value tagged with the name
      of its object type. */
  datatype FieldValue =
    | Const(value: Value)
    | Any(handle: int)
    | Values(items: seq<FieldValue>)
    | WithType(tagged: FieldValue, ty: Name)

  datatype ErrorTag =
    | NullForNonNull
    | NotAList
    | InvalidScalar
    | InvalidEnum
    | NotAMember
    | NotAnOutput
    | Untyped
    | UnknownFragment
    | ResolverFailed

  /** A completed value.  An object remembers its type and the schema field behind each response key;
      entries with equal keys are not merged yet. */
  datatype Completed =
    | CNull
    | CLeaf(value: Value)
    | CEnum(item: Name)
    | CList(items: seq<Completed>)
    | CObject(ty: Name, entries: seq<Entry>)

  datatype Entry = Entry(key: Name, field: Name, value: Completed)

  /** Everything a request is resolved against: the schema, the (rewritten) fragments, the resolver
      functions, and whether only introspection is allowed. */
  datatype Env = Env(
    schema: Schema,
    frags: Fragments,
    resolver: (Name, Selection, FieldValue) -> Result<Option<FieldValue>, ErrorTag>,
    introspectionOnly: bool)

  type Outcome = Result<Option<Completed>, ErrorTag>

  /** `does_fragment_type_apply`. */
  function Applies(schema: Schema, obj: Name): Name -> bool {
    condition => condition in schema.possible && obj in schema.possible[condition]
  }

  function ResponseKey(field: Selection): Name
    requires field.Field?
  {
    if field.alias.Some? then field.alias.value else field.name
  }

  function OrNull(v: Option<Completed>): Completed {
    if v.Some? then v.value else CNull
  }

  // ----- what bounds the recursion -----

  ghost function Measure(items: seq<Selection>, depth: nat): nat {
    if items == [] then 0 else depth + 1
  }

  /** A field whose body fits below a selection set of that depth. */
  ghost predicate Fits(frags: Fragments, field: Selection, depth: nat) {
    field.Field? && (field.items != [] ==> 0 < depth && Bounded(frags, field.items, depth - 1))
  }

  ghost predicate AllFit(frags: Fragments, fields: seq<Selection>, depth: nat) {
    forall i :: 0 <= i < |fields| ==> Fits(frags, fields[i], depth)
  }

  lemma {:induction false} CollectedFit(frags: Fragments, items: seq<Selection>, applies: Name -> bool, depth: nat)
    requires Bounded(frags, items, depth)
    ensures Collect(frags, items, applies, depth).Ok? ==>
              AllFit(frags, Collect(frags, items, applies, depth).value, depth)
    decreases depth, |items|
  {
    if items != [] {
      var s := items[|items| - 1];
      CollectedFit(frags, items[..|items| - 1], applies, depth);
      if Child(frags, s).Some? && !s.Field? {
        CollectedFit(frags, Child(frags, s).value, applies, depth - 1);
        FitMore(frags, Collect(frags, Child(frags, s).value, applies, depth - 1), depth);
      }
    }
  }

  lemma FitMore(frags: Fragments, r: Result<seq<Selection>, Name>, depth: nat)
    requires 0 < depth && (r.Ok? ==> AllFit(frags, r.value, depth - 1))
    ensures r.Ok? ==> AllFit(frags, r.value, depth)
  {
    if r.Ok? {
      forall i | 0 <= i < |r.value| ensures Fits(frags, r.value[i], depth) {
        if r.value[i].items != [] {
          BoundedMore(frags, r.value[i].items, depth - 2, depth - 1);
        }
      }
    }
  }

  // ----- resolve, resolve_list, resolve_value, resolve_container -----

  function Resolve(env: Env, ty: TypeRef, value: Option<FieldValue>, items: seq<Selection>, ghost depth: nat): Outcome
    requires CheckTypesExist(env.schema) && TypeName(ty) in env.schema.types && Bounded(env.frags, items, depth)
    decreases Measure(items, depth), Layers(ty), 1, 0
  {
    match (ty, value)
    case (NamedType(name), Some(v)) => ResolveValue(env, name, v, items, depth)
    case (NamedType(_), None) => Ok(None)
    case (NonNull(inner), Some(v)) =>
      (match Resolve(env, inner, Some(v), items, depth)
       case Ok(Some(r)) => Ok(Some(r))
       case Ok(None) => Err(NullForNonNull)
       case Err(e) => Err(e))
    case (NonNull(_), None) => Err(NullForNonNull)
    case (ListOf(_), Some(Const(Null))) => Ok(None)
    case (ListOf(inner), Some(Values(vs))) => ListOutcome(ResolveList(env, inner, vs, items, depth))
    case (ListOf(inner), Some(Const(List(vs)))) => ListOutcome(ResolveList(env, inner, AsFieldValues(vs), items, depth))
    case (ListOf(_), Some(_)) => Err(NotAList)
    case (ListOf(_), None) => Ok(None)
  }

  function AsFieldValues(vs: seq<Value>): seq<FieldValue> {
    seq(|vs|, i requires 0 <= i < |vs| => Const(vs[i]))
  }

  function ListOutcome(r: Result<seq<Completed>, ErrorTag>): Outcome {
    match r
    case Ok(vs) => Ok(Some(CList(vs)))
    case Err(e) => Err(e)
  }

  function ResolveList(env: Env, ty: TypeRef, values: seq<FieldValue>, items: seq<Selection>, ghost depth: nat)
    : Result<seq<Completed>, ErrorTag>
    requires CheckTypesExist(env.schema) && TypeName(ty) in env.schema.types && Bounded(env.frags, items, depth)
    decreases Measure(items, depth), Layers(ty), 2, |values|
  {
    if values == [] then Ok([])
    else
      match ResolveList(env, ty, values[..|values| - 1], items, depth)
      case Err(e) => Err(e)
      case Ok(before) =>
        match Resolve(env, ty, Some(values[|values| - 1]), items, depth)
        case Err(e) => Err(e)
        case Ok(v) => Ok(before + [OrNull(v)])
  }

  function ResolveValue(env: Env, name: Name, value: FieldValue, items: seq<Selection>, ghost depth: nat): Outcome
    requires CheckTypesExist(env.schema) && name in env.schema.types && Bounded(env.frags, items, depth)
    decreases Measure(items, depth), 1, 0, 0
  {
    match (env.schema.types[name], value)
    case (ScalarType(_), Const(Null)) => Ok(None)
    case (ScalarType(validator), Const(v)) =>
      if Validates(validator, v) then Ok(Some(CLeaf(v))) else Err(InvalidScalar)
    case (ScalarType(_), _) => Err(InvalidScalar)
    case (ObjectType(_, _), _) => ResolveContainer(env, name, value, items, depth)
    case (InputObjectType(_, _), _) => Err(NotAnOutput)
    case (EnumType(_), Const(Null)) => Ok(None)
    case (EnumType(values), Const(Enum(item))) => if item in values then Ok(Some(CEnum(item))) else Err(InvalidEnum)
    case (EnumType(values), Const(String(item))) => if item in values then Ok(Some(CEnum(item))) else Err(InvalidEnum)
    case (EnumType(_), _) => Err(InvalidEnum)
    case (InterfaceType(_, _), WithType(v, ty)) =>
      if name in env.schema.possible && ty in env.schema.possible[name]
      then ResolveMember(env, ty, v, items, depth) else Err(NotAMember)
    case (InterfaceType(_, _), _) => Err(Untyped)
    case (UnionType(members), WithType(v, ty)) =>
      if ty in members then ResolveMember(env, ty, v, items, depth) else Err(NotAMember)
    case (UnionType(_), _) => Err(Untyped)
    case (SubscriptionType(_), _) => Err(NotAnOutput)
    case (UploadType, _) => Err(NotAnOutput)
  }

  /** The tail shared by interfaces and unions: the tagged type must be a registered object. */
  function ResolveMember(env: Env, ty: Name, value: FieldValue, items: seq<Selection>, ghost depth: nat): Outcome
    requires CheckTypesExist(env.schema) && Bounded(env.frags, items, depth)
    decreases Measure(items, depth), 0, 2, 0
  {
    if ty !in env.schema.types || !env.schema.types[ty].ObjectType? then Err(NotAMember)
    else ResolveContainer(env, ty, value, items, depth)
  }

  function ResolveContainer(env: Env, obj: Name, parent: FieldValue, items: seq<Selection>, ghost depth: nat): Outcome
    requires CheckTypesExist(env.schema) && Bounded(env.frags, items, depth)
    requires obj in env.schema.types && env.schema.types[obj].ObjectType?
    decreases Measure(items, depth), 0, 1, 0
  {
    CollectedFit(env.frags, items, Applies(env.schema, obj), depth);
    match Collect(env.frags, items, Applies(env.schema, obj), depth)
    case Err(_) => Err(UnknownFragment)
    case Ok(fields) =>
      if fields == [] then Ok(Some(CObject(obj, [])))
      else
        match ResolveFields(env, obj, parent, fields, depth)
        case Err(e) => Err(e)
        case Ok(entries) => Ok(Some(CObject(obj, entries)))
  }

  /** The fields of one object, one after another; a field the object does not have is left out. */
  function ResolveFields(env: Env, obj: Name, parent: FieldValue, fields: seq<Selection>, ghost depth: nat)
    : Result<seq<Entry>, ErrorTag>
    requires CheckTypesExist(env.schema) && AllFit(env.frags, fields, depth)
    requires obj in env.schema.types && env.schema.types[obj].ObjectType?
    decreases depth + 1, 0, 0, |fields|
  {
    if fields == [] then Ok([])
    else
      match ResolveFields(env, obj, parent, fields[..|fields| - 1], depth)
      case Err(e) => Err(e)
      case Ok(before) =>
        match ResolveField(env, obj, parent, fields[|fields| - 1], depth)
        case Err(e) => Err(e)
        case Ok(entry) => Ok(before + if entry.Some? then [entry.value] else [])
  }

  function ResolveField(env: Env, obj: Name, parent: FieldValue, field: Selection, ghost depth: nat)
    : Result<Option<Entry>, ErrorTag>
    requires CheckTypesExist(env.schema) && Fits(env.frags, field, depth)
    requires obj in env.schema.types && env.schema.types[obj].ObjectType?
    decreases depth + 1, 0, 0, 0
  {
    var key, defs := ResponseKey(field), env.schema.types[obj].fields;
    if field.name == "__typename" then Ok(Some(Entry(key, field.name, CLeaf(String(obj)))))
    else if env.introspectionOnly then Ok(Some(Entry(key, field.name, CNull)))
    else if field.name !in defs then Ok(None)
    else
      assert TypeExists(env.schema, env.schema.types[obj]);
      match env.resolver(obj, field, parent)
      case Err(e) => Err(e)
      case Ok(v) =>
        match Resolve(env, defs[field.name].ty, v, field.items, if depth > 0 then depth - 1 else 0)
        case Err(e) => Err(e)
        case Ok(r) => Ok(Some(Entry(key, field.name, OrNull(r))))
  }

  // ----- conformance -----

  /** A completed value conforms to a type reference: nothing is null under non-null, lists are lists,
      and named types hold what they allow, at every depth (section 6.4.3 of the GraphQL October 2021
      specification). */
  predicate Conforms(env: Env, ty: TypeRef, r: Completed)
    decreases r, Layers(ty)
  {
    match ty
    case NonNull(inner) => !r.CNull? && Conforms(env, inner, r)
    case ListOf(inner) => r.CNull? || (r.CList? && forall i :: 0 <= i < |r.items| ==> Conforms(env, inner, r.items[i]))
    case NamedType(name) =>
      r.CNull? ||
      (name in env.schema.types &&
       match env.schema.types[name]
       case ScalarType(validator) => r.CLeaf? && r.value != Null && Validates(validator, r.value)
       case EnumType(values) => r.CEnum? && r.item in values
       case ObjectType(_, _) => r.CObject? && r.ty == name && ObjectConforms(env, r)
       case InterfaceType(_, _) =>
         && r.CObject? && name in env.schema.possible && r.ty in env.schema.possible[name]
         && ObjectConforms(env, r)
       case UnionType(members) => r.CObject? && r.ty in members && ObjectConforms(env, r)
       case _ => false)
  }

  predicate ObjectConforms(env: Env, r: Completed)
    requires r.CObject?
    decreases r, 0
  {
    && r.ty in env.schema.types && env.schema.types[r.ty].ObjectType?
    && forall i :: 0 <= i < |r.entries| ==> EntryConforms(env, r.ty, r.entries[i])
  }

  predicate EntryConforms(env: Env, obj: Name, e: Entry)
    requires obj in env.schema.types && env.schema.types[obj].ObjectType?
    decreases e, 0
  {
    if e.field == "__typename" then e.value == CLeaf(String(obj))
    else if e.field in env.schema.types[obj].fields
      then Conforms(env, env.schema.types[obj].fields[e.field].ty, e.value)
    else e.value == CNull
  }

  ghost predicate AllConform(env: Env, obj: Name, entries: seq<Entry>)
    requires obj in env.schema.types && env.schema.types[obj].ObjectType?
  {
    forall i :: 0 <= i < |entries| ==> EntryConforms(env, obj, entries[i])
  }

  lemma AllConformSnoc(env: Env, obj: Name, entries: seq<Entry>, e: Entry)
    requires obj in env.schema.types && env.schema.types[obj].ObjectType?
    requires AllConform(env, obj, entries) && EntryConforms(env, obj, e)
    ensures AllConform(env, obj, entries + [e])
  {}

  /** The fields of this object, other than `__typename`, may be null. */
  predicate OwnNullable(schema: Schema, obj: Name)
    requires obj in schema.types && schema.types[obj].ObjectType?
  {
    forall f :: f in schema.types[obj].fields && f != "__typename" ==> IsNullable(schema.types[obj].fields[f].ty)
  }

  /** The objects a value of a named type can turn out to be. */
  predicate IsTarget(schema: Schema, name: Name, obj: Name) {
    && name in schema.types && obj in schema.types && schema.types[obj].ObjectType?
    && match schema.types[name]
       case ObjectType(_, _) => obj == name
       case InterfaceType(_, _) => name in schema.possible && obj in schema.possible[name]
       case UnionType(members) => obj in members
       case _ => false
  }

  ghost predicate TargetsNullable(schema: Schema, name: Name) {
    forall obj :: IsTarget(schema, name, obj) ==> OwnNullable(schema, obj)
  }

  ghost predicate Sound(env: Env, ty: TypeRef, r: Outcome) {
    r.Ok? ==> Conforms(env, ty, OrNull(r.value)) && r.value != Some(CNull)
  }

  lemma {:induction false} ResolveSound(env: Env, ty: TypeRef, value: Option<FieldValue>, items: seq<Selection>,
                                        depth: nat)
    requires CheckTypesExist(env.schema) && TypeName(ty) in env.schema.types && Bounded(env.frags, items, depth)
    requires env.introspectionOnly ==> TargetsNullable(env.schema, TypeName(ty))
    ensures Sound(env, ty, Resolve(env, ty, value, items, depth))
    decreases Measure(items, depth), Layers(ty), 1, 0
  {
    match (ty, value)
    case (NamedType(name), Some(v)) => ResolveValueSound(env, name, v, items, depth);
    case (NonNull(inner), Some(v)) => ResolveSound(env, inner, value, items, depth);
    case (ListOf(inner), Some(Values(vs))) => ResolveListSound(env, inner, vs, items, depth);
    case (ListOf(inner), Some(Const(List(vs)))) => ResolveListSound(env, inner, AsFieldValues(vs), items, depth);
    case _ =>
  }

  lemma {:induction false} ResolveListSound(env: Env, ty: TypeRef, values: seq<FieldValue>,
                                            items: seq<Selection>, depth: nat)
    requires CheckTypesExist(env.schema) && TypeName(ty) in env.schema.types && Bounded(env.frags, items, depth)
    requires env.introspectionOnly ==> TargetsNullable(env.schema, TypeName(ty))
    ensures var r := ResolveList(env, ty, values, items, depth);
            r.Ok? ==> |r.value| == |values| && forall i :: 0 <= i < |r.value| ==> Conforms(env, ty, r.value[i])
    decreases Measure(items, depth), Layers(ty), 2, |values|
  {
    if values != [] {
      ResolveListSound(env, ty, values[..|values| - 1], items, depth);
      ResolveSound(env, ty, Some(values[|values| - 1]), items, depth);
    }
  }

  lemma {:induction false} ResolveValueSound(env: Env, name: Name, value: FieldValue, items: seq<Selection>, depth: nat)
    requires CheckTypesExist(env.schema) && name in env.schema.types && Bounded(env.frags, items, depth)
    requires env.introspectionOnly ==> TargetsNullable(env.schema, name)
    ensures Sound(env, NamedType(name), ResolveValue(env, name, value, items, depth))
    decreases Measure(items, depth), 1, 0, 0
  {
    match (env.schema.types[name], value)
    case (ObjectType(_, _), _) => ContainerSound(env, name, value, items, depth);
    case (InterfaceType(_, _), WithType(v, ty)) =>
      if IsTarget(env.schema, name, ty) {
        ContainerSound(env, ty, v, items, depth);
      }
    case (UnionType(_), WithType(v, ty)) =>
      if IsTarget(env.schema, name, ty) {
        ContainerSound(env, ty, v, items, depth);
      }
    case _ =>
  }

  lemma {:induction false} ContainerSound(env: Env, obj: Name, parent: FieldValue, items: seq<Selection>, depth: nat)
    requires CheckTypesExist(env.schema) && Bounded(env.frags, items, depth)
    requires obj in env.schema.types && env.schema.types[obj].ObjectType?
    requires env.introspectionOnly ==> OwnNullable(env.schema, obj)
    ensures var r := ResolveContainer(env, obj, parent, items, depth);
            r.Ok? ==> r.value.Some? && r.value.value.CObject? && r.value.value.ty == obj
                      && ObjectConforms(env, r.value.value)
    decreases Measure(items, depth), 0, 1, 0
  {
    CollectedFit(env.frags, items, Applies(env.schema, obj), depth);
    var collected := Collect(env.frags, items, Applies(env.schema, obj), depth);
    if collected.Ok? && collected.value != [] {
      FieldsSound(env, obj, parent, collected.value, depth);
    }
  }

  lemma {:induction false} FieldsSound(env: Env, obj: Name, parent: FieldValue, fields: seq<Selection>, depth: nat)
    requires CheckTypesExist(env.schema) && AllFit(env.frags, fields, depth)
    requires obj in env.schema.types && env.schema.types[obj].ObjectType?
    requires env.introspectionOnly ==> OwnNullable(env.schema, obj)
    ensures var r := ResolveFields(env, obj, parent, fields, depth);
            r.Ok? ==> AllConform(env, obj, r.value)
    decreases depth + 1, 0, 0, |fields|
  {
    if fields != [] {
      var n := |fields| - 1;
      FieldsSound(env, obj, parent, fields[..n], depth);
      FieldSound(env, obj, parent, fields[n], depth);
      FieldsSnoc(env, obj, parent, fields, depth);
      var before := ResolveFields(env, obj, parent, fields[..n], depth);
      var last := ResolveField(env, obj, parent, fields[n], depth);
      if before.Ok? && last.Ok? && last.value.Some? {
        AllConformSnoc(env, obj, before.value, last.value.value);
      }
    }
  }

  /** The last field adds its entry, if it has one, behind the others. */
  lemma FieldsSnoc(env: Env, obj: Name, parent: FieldValue, fields: seq<Selection>, depth: nat)
    requires CheckTypesExist(env.schema) && AllFit(env.frags, fields, depth) && fields != []
    requires obj in env.schema.types && env.schema.types[obj].ObjectType?
    ensures var n, r := |fields| - 1, ResolveFields(env, obj, parent, fields, depth);
            var before := ResolveFields(env, obj, parent, fields[..n], depth);
            var last := ResolveField(env, obj, parent, fields[n], depth);
            && (r.Ok? <==> before.Ok? && last.Ok?)
            && (r.Ok? ==> r.value == if last.value.Some? then before.value + [last.value.value] else before.value)
  {}

  lemma {:induction false} FieldSound(env: Env, obj: Name, parent: FieldValue, field: Selection, depth: nat)
    requires CheckTypesExist(env.schema) && Fits(env.frags, field, depth)
    requires obj in env.schema.types && env.schema.types[obj].ObjectType?
    requires env.introspectionOnly ==> OwnNullable(env.schema, obj)
    ensures var r := ResolveField(env, obj, parent, field, depth);
            r.Ok? && r.value.Some? ==> EntryConforms(env, obj, r.value.value)
    decreases depth + 1, 0, 0, 0
  {
    var defs := env.schema.types[obj].fields;
    if field.name != "__typename" && !env.introspectionOnly && field.name in defs {
      assert TypeExists(env.schema, env.schema.types[obj]);
      var resolved := env.resolver(obj, field, parent);
      if resolved.Ok? {
        ResolveSound(env, defs[field.name].ty, resolved.value, field.items, if depth > 0 then depth - 1 else 0);
      }
    }
  }

  // ----- the theorems -----

  /** The type checks of the schema are enough: whatever the resolvers return, if completion succeeds,
      the result conforms to the declared type at every depth. */
  lemma CompletionSound(env: Env, ty: TypeRef, value: Option<FieldValue>, items: seq<Selection>, depth: nat)
    requires CheckTypesExist(env.schema) && TypeName(ty) in env.schema.types && Bounded(env.frags, items, depth)
    requires !env.introspectionOnly && Resolve(env, ty, value, items, depth).Ok?
    ensures Conforms(env, ty, OrNull(Resolve(env, ty, value, items, depth).value))
  {
    ResolveSound(env, ty, value, items, depth);
  }

  /** Selecting one field gives an object with one entry. */
  lemma OneField(env: Env, obj: Name, parent: FieldValue, field: Selection, depth: nat)
    requires CheckTypesExist(env.schema) && Bounded(env.frags, [field], depth)
    requires obj in env.schema.types && env.schema.types[obj].ObjectType? && field.Field?
    ensures Fits(env.frags, field, depth)
    ensures var entry := ResolveField(env, obj, parent, field, depth);
            entry.Ok? && entry.value.Some? ==>
              ResolveContainer(env, obj, parent, [field], depth) == Ok(Some(CObject(obj, [entry.value.value])))
  {
    assert [] + [field] == [field] && [field][..0] == [] && [field][0] == field;
    CollectSnoc(env.frags, [], field, Applies(env.schema, obj), depth);
    assert Collect(env.frags, [field], Applies(env.schema, obj), depth) == Ok([field]);
    CollectedFit(env.frags, [field], Applies(env.schema, obj), depth);
    FieldsSnoc(env, obj, parent, [field], depth);
    assert ResolveFields(env, obj, parent, [], depth) == Ok([]);
    var entry := ResolveField(env, obj, parent, field, depth);
    if entry.Ok? && entry.value.Some? {
      assert [] + [entry.value.value] == [entry.value.value];
    }
  }

  // ----- introspection-only mode -----

  /** Every request at this type reference that succeeds gives a conforming result. */
  ghost predicate AlwaysConforms(env: Env, ty: TypeRef)
    requires CheckTypesExist(env.schema) && TypeName(ty) in env.schema.types
  {
    forall value, items, depth: nat | Bounded(env.frags, items, depth) ::
      Resolve(env, ty, value, items, depth).Ok? ==>
        Conforms(env, ty, OrNull(Resolve(env, ty, value, items, depth).value))
  }

  /** In introspection-only mode a selected field of an object becomes null, whatever its type. */
  lemma FieldBecomesNull(env: Env, obj: Name, field: Selection, parent: FieldValue, depth: nat)
    requires CheckTypesExist(env.schema) && env.introspectionOnly && Bounded(env.frags, [field], depth)
    requires obj in env.schema.types && env.schema.types[obj].ObjectType?
    requires field.Field? && field.name != "__typename"
    ensures ResolveContainer(env, obj, parent, [field], depth)
         == Ok(Some(CObject(obj, [Entry(ResponseKey(field), field.name, CNull)])))
  {
    OneField(env, obj, parent, field, depth);
  }

  /** A resolver value that reaches an object through a type reference. */
  function Reaching(schema: Schema, ty: TypeRef, obj: Name, parent: FieldValue): FieldValue {
    match ty
    case NonNull(inner) => Reaching(schema, inner, obj, parent)
    case ListOf(inner) => Values([Reaching(schema, inner, obj, parent)])
    case NamedType(name) => if name == obj then parent else WithType(parent, obj)
  }

  /** The failing request: it selects a non-null field of an object that the type can turn out to be. */
  lemma {:induction false} IntrospectionOnlyUnsound(env: Env, ty: TypeRef, obj: Name, field: Selection,
                                                    parent: FieldValue, depth: nat)
    requires CheckTypesExist(env.schema) && env.introspectionOnly && Bounded(env.frags, [field], depth)
    requires IsTarget(env.schema, TypeName(ty), obj) && field.Field? && field.name != "__typename"
    requires field.name in env.schema.types[obj].fields && !IsNullable(env.schema.types[obj].fields[field.name].ty)
    ensures var r := Resolve(env, ty, Some(Reaching(env.schema, ty, obj, parent)), [field], depth);
            r.Ok? && r.value.Some? && !r.value.value.CNull? && !Conforms(env, ty, r.value.value)
    decreases ty
  {
    match ty
    case NonNull(inner) => IntrospectionOnlyUnsound(env, inner, obj, field, parent, depth);
    case ListOf(inner) =>
      IntrospectionOnlyUnsound(env, inner, obj, field, parent, depth);
      var value := Reaching(env.schema, inner, obj, parent);
      OneItemList(env, inner, value, [field], depth);
      var bad := CList([Resolve(env, inner, Some(value), [field], depth).value.value]);
      assert !Conforms(env, inner, bad.items[0]);
      assert !Conforms(env, ty, bad);
    case NamedType(name) =>
      NamedReaches(env, name, obj, parent, [field], depth);
      FieldBecomesNull(env, obj, field, parent, depth);
      NullFieldConformsNowhere(env, name, obj, field);
  }

  lemma OneItemList(env: Env, ty: TypeRef, value: FieldValue, items: seq<Selection>, depth: nat)
    requires CheckTypesExist(env.schema) && TypeName(ty) in env.schema.types && Bounded(env.frags, items, depth)
    requires Resolve(env, ty, Some(value), items, depth).Ok?
    ensures ResolveList(env, ty, [value], items, depth)
         == Ok([OrNull(Resolve(env, ty, Some(value), items, depth).value)])
  {
    assert [value][..0] == [];
    assert ResolveList(env, ty, [], items, depth) == Ok([]);
    var v := OrNull(Resolve(env, ty, Some(value), items, depth).value);
    assert [] + [v] == [v];
  }

  lemma NamedReaches(env: Env, name: Name, obj: Name, parent: FieldValue, items: seq<Selection>, depth: nat)
    requires CheckTypesExist(env.schema) && Bounded(env.frags, items, depth) && IsTarget(env.schema, name, obj)
    ensures Resolve(env, NamedType(name), Some(Reaching(env.schema, NamedType(name), obj, parent)), items, depth)
         == ResolveContainer(env, obj, parent, items, depth)
  {
    var value := Reaching(env.schema, NamedType(name), obj, parent);
    match env.schema.types[name]
    case ObjectType(_, _) => assert value == parent;
    case InterfaceType(_, _) =>
      assert value == WithType(parent, obj);
      assert ResolveMember(env, obj, parent, items, depth) == ResolveContainer(env, obj, parent, items, depth);
    case UnionType(_) =>
      assert value == WithType(parent, obj);
      assert ResolveMember(env, obj, parent, items, depth) == ResolveContainer(env, obj, parent, items, depth);
  }

  /** An object with a null where its type says non-null conforms to nothing that it could stand for. */
  lemma NullFieldConformsNowhere(env: Env, name: Name, obj: Name, field: Selection)
    requires IsTarget(env.schema, name, obj) && field.Field? && field.name != "__typename"
    requires field.name in env.schema.types[obj].fields && !IsNullable(env.schema.types[obj].fields[field.name].ty)
    ensures !Conforms(env, NamedType(name), CObject(obj, [Entry(ResponseKey(field), field.name, CNull)]))
  {
    var bad := CObject(obj, [Entry(ResponseKey(field), field.name, CNull)]);
    assert !EntryConforms(env, obj, bad.entries[0]);
    assert !ObjectConforms(env, bad);
  }

  /** In introspection-only mode every field resolves to null without asking its type.  So there all
      requests at a type are sound exactly when the objects it can turn out to be have only nullable
      fields of their own; what other objects declare does not matter. */
  lemma IntrospectionOnlyExact(env: Env, ty: TypeRef)
    requires CheckTypesExist(env.schema) && TypeName(ty) in env.schema.types && env.introspectionOnly
    ensures AlwaysConforms(env, ty) <==> TargetsNullable(env.schema, TypeName(ty))
  {
    if TargetsNullable(env.schema, TypeName(ty)) {
      forall value, items, depth: nat | Bounded(env.frags, items, depth) && Resolve(env, ty, value, items, depth).Ok?
        ensures Conforms(env, ty, OrNull(Resolve(env, ty, value, items, depth).value))
      {
        ResolveSound(env, ty, value, items, depth);
      }
    } else {
      var obj :| IsTarget(env.schema, TypeName(ty), obj) && !OwnNullable(env.schema, obj);
      NonNullFieldFails(env, ty, obj);
    }
  }

  lemma NonNullFieldFails(env: Env, ty: TypeRef, obj: Name)
    requires CheckTypesExist(env.schema) && TypeName(ty) in env.schema.types && env.introspectionOnly
    requires IsTarget(env.schema, TypeName(ty), obj) && !OwnNullable(env.schema, obj)
    ensures !AlwaysConforms(env, ty)
  {
    var f :| f in env.schema.types[obj].fields && f != "__typename"
             && !IsNullable(env.schema.types[obj].fields[f].ty);
    IntrospectionOnlyUnsound(env, ty, obj, Field(None, f, [], [], []), Const(Null), 0);
  }

  /** Where requests start: an object root is sound exactly when its own fields are nullable, and a
      subscription field, whose values are completed as usual, when the objects it can give are. */
  lemma IntrospectionOnlyAtRoots(env: Env)
    requires CheckTypesExist(env.schema) && env.introspectionOnly
    ensures forall root :: root in env.schema.types && env.schema.types[root].ObjectType? ==>
              (AlwaysConforms(env, NamedType(root)) <==> OwnNullable(env.schema, root))
    ensures forall s, f | s in env.schema.types && env.schema.types[s].SubscriptionType?
                          && f in env.schema.types[s].fields ::
              var ty := env.schema.types[s].fields[f].ty;
              && TypeName(ty) in env.schema.types
              && (AlwaysConforms(env, ty) <==> TargetsNullable(env.schema, TypeName(ty)))
  {
    forall root | root in env.schema.types && env.schema.types[root].ObjectType?
      ensures AlwaysConforms(env, NamedType(root)) <==> OwnNullable(env.schema, root)
    {
      IntrospectionOnlyExact(env, NamedType(root));
      assert forall obj :: IsTarget(env.schema, root, obj) <==> obj == root;
    }
    forall s, f | s in env.schema.types && env.schema.types[s].SubscriptionType? && f in env.schema.types[s].fields
      ensures var ty := env.schema.types[s].fields[f].ty;
              && TypeName(ty) in env.schema.types
              && (AlwaysConforms(env, ty) <==> TargetsNullable(env.schema, TypeName(ty)))
    {
      assert TypeExists(env.schema, env.schema.types[s]);
      IntrospectionOnlyExact(env, env.schema.types[s].fields[f].ty);
    }
  }

  // ----- one entry per field -----

  /** The object a completed value claims to be gets one entry per selected field it has, in order. */
  lemma {:induction false} EntriesFollowFields(env: Env, obj: Name, parent: FieldValue, fields: seq<Selection>,
                                               depth: nat)
    requires CheckTypesExist(env.schema) && AllFit(env.frags, fields, depth)
    requires obj in env.schema.types && env.schema.types[obj].ObjectType?
    requires ResolveFields(env, obj, parent, fields, depth).Ok?
    ensures Labels(ResolveFields(env, obj, parent, fields, depth).value) == Selected(env, obj, fields)
    decreases |fields|
  {
    if fields != [] {
      EntriesFollowFields(env, obj, parent, fields[..|fields| - 1], depth);
    }
  }

  function Labels(entries: seq<Entry>): seq<(Name, Name)> {
    seq(|entries|, i requires 0 <= i < |entries| => (entries[i].key, entries[i].field))
  }

  /** The response key and name of each selected field that the object has. */
  function Selected(env: Env, obj: Name, fields: seq<Selection>): seq<(Name, Name)>
    requires obj in env.schema.types && env.schema.types[obj].ObjectType?
    requires forall i :: 0 <= i < |fields| ==> fields[i].Field?
  {
    if fields == [] then []
    else
      var f := fields[|fields| - 1];
      Selected(env, obj, fields[..|fields| - 1]) +
      if f.name == "__typename" || env.introspectionOnly || f.name in env.schema.types[obj].fields
      then [(ResponseKey(f), f.name)] else []
  }

  // ----- the subtype order and completion -----

  /** A value that completes at a type completes to the same result at every wider type. */
  lemma {:induction false} CompletionCovariant(env: Env, wide: TypeRef, narrow: TypeRef, value: Option<FieldValue>,
                                               items: seq<Selection>, depth: nat)
    requires CheckTypesExist(env.schema) && Bounded(env.frags, items, depth)
    requires TypeName(narrow) in env.schema.types && IsSubtype(wide, narrow)
    requires Resolve(env, narrow, value, items, depth).Ok?
    ensures TypeName(wide) in env.schema.types
    ensures Resolve(env, wide, value, items, depth) == Resolve(env, narrow, value, items, depth)
    decreases narrow, 0
  {
    SubtypeAddsLayers(wide, narrow);
    match narrow
    case NamedType(_) =>
    case NonNull(inner) =>
      CompletionCovariant(env, if wide.NonNull? then wide.inner else wide, inner, value, items, depth);
    case ListOf(inner) =>
      match value
      case Some(Values(vs)) => ListCovariant(env, wide.inner, inner, vs, items, depth);
      case Some(Const(List(vs))) => ListCovariant(env, wide.inner, inner, AsFieldValues(vs), items, depth);
      case _ =>
  }

  lemma {:induction false} ListCovariant(env: Env, wide: TypeRef, narrow: TypeRef, values: seq<FieldValue>,
                                         items: seq<Selection>, depth: nat)
    requires CheckTypesExist(env.schema) && Bounded(env.frags, items, depth)
    requires TypeName(narrow) in env.schema.types && IsSubtype(wide, narrow) && TypeName(wide) == TypeName(narrow)
    requires ResolveList(env, narrow, values, items, depth).Ok?
    ensures ResolveList(env, wide, values, items, depth) == ResolveList(env, narrow, values, items, depth)
    decreases narrow, 1 + |values|
  {
    if values != [] {
      ListCovariant(env, wide, narrow, values[..|values| - 1], items, depth);
      CompletionCovariant(env, wide, narrow, Some(values[|values| - 1]), items, depth);
    }
  }

  /** The converse fails already for null. */
  lemma CompletionNotContravariant(env: Env, t: Name, items: seq<Selection>, depth: nat)
    requires CheckTypesExist(env.schema) && t in env.schema.types && Bounded(env.frags, items, depth)
    ensures IsSubtype(NamedType(t), NonNull(NamedType(t)))
    ensures Resolve(env, NamedType(t), None, items, depth) == Ok(None)
    ensures Resolve(env, NonNull(NamedType(t)), None, items, depth).Err?
  {}

  /** What the operand order of `check_is_valid_implementation` costs: an object that the check accepts
      as an implementation, and a request at the interface.  Completion returns that object with null
      where the interface declares the field non-null. */
  lemma InterfacePromiseBroken(env: Env, obj: Name, face: Name, f: Name, t: Name, parent: FieldValue)
    requires CheckTypesExist(env.schema) && !env.introspectionOnly
    requires f != "__typename" && obj in env.schema.types && face in env.schema.types
    requires env.schema.types[obj] == ObjectType(map[f := FieldDef(NamedType(t), map[])], {face})
    requires env.schema.types[face] == InterfaceType(map[f := FieldDef(NonNull(NamedType(t)), map[])], {})
    requires face in env.schema.possible && obj in env.schema.possible[face]
    requires env.resolver(obj, Field(None, f, [], [], []), parent) == Ok(None)
    ensures CheckIsValidImplementation(env.schema.types[obj].fields, env.schema.types[face].fields)
    ensures var field := Field(None, f, [], [], []);
            && Bounded(env.frags, [field], 0)
            && Resolve(env, NamedType(face), Some(WithType(parent, obj)), [field], 0)
            == Ok(Some(CObject(obj, [Entry(f, f, CNull)])))
    ensures !Conforms(env, env.schema.types[face].fields[f].ty, CNull)
  {
    WiderFieldAccepted(env.schema, f, t);
    var field := Field(None, f, [], [], []);
    assert TypeExists(env.schema, env.schema.types[obj]);
    assert f in env.schema.types[obj].fields;
    assert ResolveField(env, obj, parent, field, 0) == Ok(Some(Entry(f, f, CNull)));
    OneField(env, obj, parent, field, 0);
    assert face != obj;
    NamedReaches(env, face, obj, parent, [field], 0);
  }

  /** A schema of that kind which passes all checks. */
  function PromiseSchema(query: Name, obj: Name, face: Name, f: Name, t: Name): Schema {
    Schema(map[query := ObjectType(map["ok" := FieldDef(NamedType(face), map[])], {}),
               obj := ObjectType(map[f := FieldDef(NamedType(t), map[])], {face}),
               face := InterfaceType(map[f := FieldDef(NonNull(NamedType(t)), map[])], {}),
               t := ScalarType(None)],
           map[face := {obj}], query, None, None, false)
  }

  ghost predicate FiveNames(query: Name, obj: Name, face: Name, f: Name, t: Name) {
    query != obj && query != face && query != t && obj != face && obj != t && face != t && !IsReserved(f)
  }

  lemma PromiseTypesExist(query: Name, obj: Name, face: Name, f: Name, t: Name)
    requires FiveNames(query, obj, face, f, t)
    ensures var schema := PromiseSchema(query, obj, face, f, t);
            CheckTypesExist(schema) && CheckRootTypes(schema) && forall n :: !IsInputObject(schema, n)
  {
    var schema := PromiseSchema(query, obj, face, f, t);
    assert TypeName(NamedType(t)) == t && TypeName(NonNull(NamedType(t))) == t && TypeName(NamedType(face)) == face;
    assert FieldsExist(schema, schema.types[query].fields) && FieldsExist(schema, schema.types[obj].fields);
    assert FieldsExist(schema, schema.types[face].fields);
  }

  lemma PromiseTypesOk(query: Name, obj: Name, face: Name, f: Name, t: Name, n: Name)
    requires FiveNames(query, obj, face, f, t)
    requires n in PromiseSchema(query, obj, face, f, t).types
    ensures var schema := PromiseSchema(query, obj, face, f, t); OutputTypeOk(schema, n, schema.types[n])
  {
    var schema := PromiseSchema(query, obj, face, f, t);
    if n == query {
      assert "ok"[0] != "__"[0];
      OneFieldOk(schema, "ok", NamedType(face));
    } else if n == obj {
      OneFieldOk(schema, f, NamedType(t));
      WiderFieldAccepted(schema, f, t);
    } else if n == face {
      assert TypeName(NamedType(t)) == t;
      OneFieldOk(schema, f, NonNull(NamedType(t)));
    }
  }

  lemma OneFieldOk(schema: Schema, f: Name, ty: TypeRef)
    requires !IsReserved(f) && TypeName(ty) in schema.types && IsOutputType(schema.types[TypeName(ty)])
    ensures map[f := FieldDef(ty, map[])] != map[] && FieldsOk(schema, map[f := FieldDef(ty, map[])])
  {
    assert f in map[f := FieldDef(ty, map[])];
  }

  lemma PromiseSchemaAccepted(query: Name, obj: Name, face: Name, f: Name, t: Name)
    requires FiveNames(query, obj, face, f, t)
    ensures Accepted(PromiseSchema(query, obj, face, f, t))
  {
    PromiseTypesExist(query, obj, face, f, t);
    forall n | n in PromiseSchema(query, obj, face, f, t).types
      ensures var schema := PromiseSchema(query, obj, face, f, t); OutputTypeOk(schema, n, schema.types[n])
    {
      PromiseTypesOk(query, obj, face, f, t, n);
    }
  }

  /** With equal field types, which is when an accepted implementation obeys the specification, the
      interface's promise holds for every entry of every conforming object. */
  lemma InterfacePromiseKept(env: Env, obj: Name, face: Name, e: Entry)
    requires obj in env.schema.types && env.schema.types[obj].ObjectType?
    requires face in env.schema.types && env.schema.types[face].InterfaceType?
    requires CheckIsValidImplementation(env.schema.types[obj].fields, env.schema.types[face].fields)
    requires CovariantFields(env.schema, env.schema.types[obj].fields, env.schema.types[face].fields)
    requires EntryConforms(env, obj, e) && e.field != "__typename" && e.field in env.schema.types[face].fields
    ensures Conforms(env, env.schema.types[face].fields[e.field].ty, e.value)
  {
    AcceptedIsCovariantIffSame(env.schema, env.schema.types[obj].fields, env.schema.types[face].fields);
  }
}
