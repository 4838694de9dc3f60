/** The types of a dynamic schema, and the checks made when it is built.  The rules for input objects are
    in `InputObjects`. */
module DynamicSchema {
  import opened Wrappers
  import opened Document
  import opened TypeRefs

  datatype Argument = Argument(ty: TypeRef)

  datatype FieldDef = FieldDef(ty: TypeRef, arguments: map<Name, Argument>)

  datatype InputField = InputField(ty: TypeRef, hasDefault: bool)

  /** A scalar may have a validator; without one it accepts every value. */
  datatype TypeDef =
    | ScalarType(validator: Option<Value -> bool>)
    | ObjectType(fields: map<Name, FieldDef>, implements: set<Name>)
    | InputObjectType(inputs: seq<Named<InputField>>, oneof: bool)
    | EnumType(values: set<Name>)
    | InterfaceType(fields: map<Name, FieldDef>, implements: set<Name>)
    | UnionType(members: set<Name>)
    | SubscriptionType(fields: map<Name, FieldDef>)
    | UploadType

  /** `possible` is the registry's view: the object names each interface, union or object stands for. */
  datatype Schema = Schema(
    types: map<Name, TypeDef>,
    possible: map<Name, set<Name>>,
    queryType: Name,
    mutationType: Option<Name>,
    subscriptionType: Option<Name>,
    hasEntities: bool)

  predicate Validates(validator: Option<Value -> bool>, v: Value) {
    validator.Some? ==> validator.value(v)
  }

  predicate IsOutputType(def: TypeDef) {
    def.ScalarType? || def.ObjectType? || def.EnumType? || def.InterfaceType? || def.UnionType?
  }

  predicate IsInputType(def: TypeDef) {
    def.ScalarType? || def.InputObjectType? || def.EnumType? || def.UploadType?
  }

  predicate IsReserved(name: Name) {
    "__" <= name
  }

  // ----- check_types_exists -----

  predicate FieldsExist(schema: Schema, fields: map<Name, FieldDef>) {
    forall f :: f in fields ==>
      && TypeName(fields[f].ty) in schema.types
      && forall a :: a in fields[f].arguments ==> TypeName(fields[f].arguments[a].ty) in schema.types
  }

  predicate TypeExists(schema: Schema, def: TypeDef) {
    match def
    case ObjectType(fields, implements) => FieldsExist(schema, fields) && implements <= schema.types.Keys
    case InputObjectType(inputs, _) => forall i :: 0 <= i < |inputs| ==> TypeName(inputs[i].value.ty) in schema.types
    case InterfaceType(fields, implements) => FieldsExist(schema, fields) && implements <= schema.types.Keys
    case UnionType(members) => members <= schema.types.Keys
    case SubscriptionType(fields) => FieldsExist(schema, fields)
    case _ => true
  }

  predicate CheckTypesExist(schema: Schema) {
    && schema.queryType in schema.types
    && (schema.mutationType.Some? ==> schema.mutationType.value in schema.types)
    && forall n :: n in schema.types ==> TypeExists(schema, schema.types[n])
  }

  // ----- check_is_valid_implementation -----

  /** The operands of `is_subtype` are in the order of the source: the implementing field's type is the
      receiver, and so is the interface argument's type. */
  predicate CheckField(field: FieldDef, face: FieldDef) {
    && (forall a :: a in face.arguments ==>
          if a in field.arguments then IsSubtype(face.arguments[a].ty, field.arguments[a].ty)
          else IsNullable(face.arguments[a].ty))
    && IsSubtype(field.ty, face.ty)
  }

  predicate CheckIsValidImplementation(implementing: map<Name, FieldDef>, implemented: map<Name, FieldDef>) {
    forall f :: f in implemented ==> f in implementing && CheckField(implementing[f], implemented[f])
  }

  // ----- the other checks -----

  predicate CheckRootTypes(schema: Schema) {
    && (schema.queryType in schema.types ==> schema.types[schema.queryType].ObjectType?)
    && (schema.mutationType.Some? && schema.mutationType.value in schema.types ==>
          schema.types[schema.mutationType.value].ObjectType?)
    && (schema.subscriptionType.Some? && schema.subscriptionType.value in schema.types ==>
          schema.types[schema.subscriptionType.value].SubscriptionType?)
  }

  predicate FieldsOk(schema: Schema, fields: map<Name, FieldDef>) {
    forall f :: f in fields ==>
      && !IsReserved(f)
      && (TypeName(fields[f].ty) in schema.types ==> IsOutputType(schema.types[TypeName(fields[f].ty)]))
      && forall a :: a in fields[f].arguments ==>
           && !IsReserved(a)
           && var name := TypeName(fields[f].arguments[a].ty);
              name in schema.types ==> IsInputType(schema.types[name])
  }

  predicate ImplementsOk(schema: Schema, fields: map<Name, FieldDef>, implements: set<Name>) {
    forall i :: i in implements && i in schema.types ==>
      schema.types[i].InterfaceType? && CheckIsValidImplementation(fields, schema.types[i].fields)
  }

  /** What `check_objects`, `check_interfaces` and `check_unions` ask of one type. */
  predicate OutputTypeOk(schema: Schema, n: Name, def: TypeDef) {
    match def
    case ObjectType(fields, implements) =>
      && (fields != map[] || (n == schema.queryType && schema.hasEntities))
      && FieldsOk(schema, fields) && ImplementsOk(schema, fields, implements)
    case InterfaceType(fields, implements) =>
      FieldsOk(schema, fields) && n !in implements && ImplementsOk(schema, fields, implements)
    case UnionType(members) => forall m :: m in members && m in schema.types ==> schema.types[m].ObjectType?
    case _ => true
  }

  predicate CheckOutputTypes(schema: Schema) {
    forall n :: n in schema.types ==> OutputTypeOk(schema, n, schema.types[n])
  }

  // ----- implementations against the specification -----

  /** The rule of section 3.6 of the GraphQL October 2021 specification for the type of one implementing
      field: the same type, or one that is narrower by non-null, inside lists, or by belonging to a union
      or implementing an interface. */
  predicate IsValidFieldType(schema: Schema, field: TypeRef, implemented: TypeRef)
    decreases field, implemented
  {
    match field
    case NonNull(inner) =>
      IsValidFieldType(schema, inner, if implemented.NonNull? then implemented.inner else implemented)
    case ListOf(inner) => implemented.ListOf? && IsValidFieldType(schema, inner, implemented.inner)
    case NamedType(name) =>
      implemented.NamedType? && (name == implemented.name || Belongs(schema, name, implemented.name))
  }

  /** `name` is a member of the union `face`, or declares that it implements the interface `face`. */
  predicate Belongs(schema: Schema, name: Name, face: Name) {
    && name in schema.types && face in schema.types
    && match schema.types[face]
       case UnionType(members) => schema.types[name].ObjectType? && name in members
       case InterfaceType(_, _) =>
         (schema.types[name].ObjectType? || schema.types[name].InterfaceType?) && face in schema.types[name].implements
       case _ => false
  }

  /** Between references to the same named type the rule is the subtype order. */
  lemma {:induction false} ValidFieldTypeIsSubtype(schema: Schema, field: TypeRef, implemented: TypeRef)
    requires TypeName(field) == TypeName(implemented)
    ensures IsValidFieldType(schema, field, implemented) <==> IsSubtype(implemented, field)
    decreases field, implemented
  {
    match field
    case NonNull(inner) =>
      ValidFieldTypeIsSubtype(schema, inner, if implemented.NonNull? then implemented.inner else implemented);
    case ListOf(inner) =>
      if implemented.ListOf? {
        ValidFieldTypeIsSubtype(schema, inner, implemented.inner);
      }
    case NamedType(_) =>
  }

  /** The rule for one field as a whole: the interface's arguments with the same types, no further argument
      that is required, and a valid field type. */
  predicate IsLawfulField(schema: Schema, field: FieldDef, face: FieldDef) {
    && (forall a :: a in face.arguments ==> a in field.arguments && field.arguments[a].ty == face.arguments[a].ty)
    && (forall a :: a in field.arguments && a !in face.arguments ==> IsNullable(field.arguments[a].ty))
    && IsValidFieldType(schema, field.ty, face.ty)
  }

  predicate IsLawfulImplementation(schema: Schema, implementing: map<Name, FieldDef>,
                                   implemented: map<Name, FieldDef>)
  {
    forall f :: f in implemented ==> f in implementing && IsLawfulField(schema, implementing[f], implemented[f])
  }

  /** Every implementing field obeys the rule for field types. */
  predicate CovariantFields(schema: Schema, implementing: map<Name, FieldDef>, implemented: map<Name, FieldDef>) {
    forall f :: f in implemented && f in implementing ==>
      IsValidFieldType(schema, implementing[f].ty, implemented[f].ty)
  }

  /** The check accepts an implementing field that is wider than the interface field. */
  lemma WiderFieldAccepted(schema: Schema, f: Name, t: Name)
    ensures var wide, narrow := FieldDef(NamedType(t), map[]), FieldDef(NonNull(NamedType(t)), map[]);
            && CheckIsValidImplementation(map[f := wide], map[f := narrow])
            && !CovariantFields(schema, map[f := wide], map[f := narrow])
  {
    var wide, narrow := FieldDef(NamedType(t), map[]), FieldDef(NonNull(NamedType(t)), map[]);
    var implementing, implemented := map[f := wide], map[f := narrow];
    assert IsSubtype(NamedType(t), NonNull(NamedType(t)));
    assert CheckField(wide, narrow);
    assert f in implemented && f in implementing
           && !IsValidFieldType(schema, implementing[f].ty, implemented[f].ty);
  }

  /** A field passes both the check and the rule exactly when it has the interface's own type. */
  lemma AcceptedAndValidIffSame(schema: Schema, field: TypeRef, implemented: TypeRef)
    ensures IsSubtype(field, implemented) && IsValidFieldType(schema, field, implemented) <==> field == implemented
  {
    SubtypeReflexive(implemented);
    if TypeName(field) == TypeName(implemented) {
      ValidFieldTypeIsSubtype(schema, field, implemented);
    }
    if IsSubtype(field, implemented) {
      SubtypeAddsLayers(field, implemented);
      if IsSubtype(implemented, field) {
        SubtypeAntisymmetric(field, implemented);
      }
    }
  }

  /** The check rejects every implementing field that is properly narrower, which the rule allows. */
  lemma NarrowerFieldRejected(schema: Schema, implementing: map<Name, FieldDef>,
                              implemented: map<Name, FieldDef>, f: Name)
    requires f in implemented && f in implementing
    requires IsValidFieldType(schema, implementing[f].ty, implemented[f].ty)
    requires implementing[f].ty != implemented[f].ty
    ensures !CheckIsValidImplementation(implementing, implemented)
  {
    AcceptedAndValidIffSame(schema, implementing[f].ty, implemented[f].ty);
  }

  ghost predicate SameFieldTypes(implementing: map<Name, FieldDef>, implemented: map<Name, FieldDef>) {
    forall f :: f in implemented && f in implementing ==> implementing[f].ty == implemented[f].ty
  }

  /** Among accepted implementations, exactly those with the same field types obey the rule. */
  lemma AcceptedIsCovariantIffSame(schema: Schema, implementing: map<Name, FieldDef>, implemented: map<Name, FieldDef>)
    requires CheckIsValidImplementation(implementing, implemented)
    ensures CovariantFields(schema, implementing, implemented) <==> SameFieldTypes(implementing, implemented)
  {
    forall f | f in implemented
      ensures IsValidFieldType(schema, implementing[f].ty, implemented[f].ty) <==>
              implementing[f].ty == implemented[f].ty
    {
      AcceptedAndValidIffSame(schema, implementing[f].ty, implemented[f].ty);
    }
  }

  /** The same field type, the interface's arguments with the same types, and otherwise only arguments that
      may be left out. */
  predicate SameSignature(field: FieldDef, face: FieldDef) {
    && field.ty == face.ty
    && (forall a :: a in face.arguments ==> a in field.arguments && field.arguments[a].ty == face.arguments[a].ty)
    && (forall a :: a in field.arguments && a !in face.arguments ==> IsNullable(field.arguments[a].ty))
  }

  /** A field passes both the check and the whole rule, arguments included, exactly when it has the
      interface's own signature. */
  lemma AcceptedAndLawfulIffSame(schema: Schema, field: FieldDef, face: FieldDef)
    ensures CheckField(field, face) && IsLawfulField(schema, field, face) <==> SameSignature(field, face)
  {
    AcceptedAndValidIffSame(schema, field.ty, face.ty);
    forall a | a in face.arguments ensures IsSubtype(face.arguments[a].ty, face.arguments[a].ty) {
      SubtypeReflexive(face.arguments[a].ty);
    }
  }

  /** Among accepted implementations, exactly those with the interface's signatures obey the
      specification. */
  lemma AcceptedIsLawfulIffSame(schema: Schema, implementing: map<Name, FieldDef>, implemented: map<Name, FieldDef>)
    requires CheckIsValidImplementation(implementing, implemented)
    ensures IsLawfulImplementation(schema, implementing, implemented) <==>
            forall f :: f in implemented ==> SameSignature(implementing[f], implemented[f])
  {
    forall f | f in implemented
      ensures IsLawfulField(schema, implementing[f], implemented[f]) <==> SameSignature(implementing[f], implemented[f])
    {
      AcceptedAndLawfulIffSame(schema, implementing[f], implemented[f]);
    }
  }

  /** An implementation that obeys the specification is accepted exactly when its field types are the
      interface's. */
  lemma LawfulIsAcceptedIffSame(schema: Schema, implementing: map<Name, FieldDef>, implemented: map<Name, FieldDef>)
    requires IsLawfulImplementation(schema, implementing, implemented)
    ensures CheckIsValidImplementation(implementing, implemented) <==> SameFieldTypes(implementing, implemented)
  {
    forall f | f in implemented
      ensures CheckField(implementing[f], implemented[f]) <==> implementing[f].ty == implemented[f].ty
    {
      AcceptedAndLawfulIffSame(schema, implementing[f], implemented[f]);
    }
  }

  /** The check is too generous with arguments in three ways: it accepts one that is narrower than the
      interface's, one that is missing, and a further one that is required. */
  lemma ArgumentsTooGenerous(schema: Schema, f: Name, a: Name, t: Name)
    ensures var nullable, required := Argument(NamedType(t)), Argument(NonNull(NamedType(t)));
            var none, one, must := FieldDef(NamedType(t), map[]), FieldDef(NamedType(t), map[a := nullable]),
                                   FieldDef(NamedType(t), map[a := required]);
            && CheckField(must, one) && !IsLawfulField(schema, must, one)
            && CheckField(none, one) && !IsLawfulField(schema, none, one)
            && CheckField(must, none) && !IsLawfulField(schema, must, none)
  {
    var nullable, required := Argument(NamedType(t)), Argument(NonNull(NamedType(t)));
    var one, must := FieldDef(NamedType(t), map[a := nullable]), FieldDef(NamedType(t), map[a := required]);
    assert a in one.arguments && a in must.arguments;
    assert IsSubtype(NamedType(t), NonNull(NamedType(t)));
  }
}
