/** What the search for reference cycles is for: input objects for which some value passes validation.
    When all of them have one, and what escapes the search. */
module InputInhabited {
  import opened Wrappers
  import opened Document
  import opened TypeRefs
  import opened DynamicSchema
  import opened InputObjects

  // ----- is_valid_input_value -----

  /** A field that has to be supplied: it is not nullable and has no default. */
  predicate IsRequired(field: InputField) {
    !IsNullable(field.ty) && !field.hasDefault
  }

  predicate Supplies(fields: seq<Named<Value>>, name: Name) {
    exists j :: 0 <= j < |fields| && fields[j].name == name
  }

  /** Validation of a supplied value.  A single value counts as a list of one, and null is left to the
      enclosing type; only scalars with a validator restrict their values. */
  predicate ValidInput(schema: Schema, ty: TypeRef, v: Value)
    decreases v, Layers(ty)
  {
    match ty
    case NonNull(inner) => !v.Null? && ValidInput(schema, inner, v)
    case ListOf(inner) =>
      v.Null? ||
      if v.List? then forall i :: 0 <= i < |v.items| ==> ValidInput(schema, inner, v.items[i])
      else ValidInput(schema, inner, v)
    case NamedType(name) =>
      v.Null? ||
      (name in schema.types &&
       match schema.types[name]
       case ScalarType(validator) => Validates(validator, v)
       case UploadType => v.String?
       case EnumType(values) => (v.Enum? && v.item in values) || (v.String? && v.text in values)
       case InputObjectType(inputs, oneof) =>
         && v.Object? && (oneof ==> |v.fields| == 1 && !v.fields[0].value.Null?)
         && (forall i, j :: 0 <= i < |inputs| && 0 <= j < |v.fields| && inputs[i].name == v.fields[j].name ==>
               ValidInput(schema, inputs[i].value.ty, v.fields[j].value))
         && (forall i :: 0 <= i < |inputs| && IsRequired(inputs[i].value) ==> Supplies(v.fields, inputs[i].name))
         && (forall j :: 0 <= j < |v.fields| ==> Declares(inputs, v.fields[j].name))
       case _ => true)
  }

  predicate Declares(inputs: seq<Named<InputField>>, name: Name) {
    exists i :: 0 <= i < |inputs| && inputs[i].name == name
  }

  /** Some value other than null passes validation at this type. */
  ghost predicate Inhabited(schema: Schema, n: Name) {
    exists v: Value :: !v.Null? && ValidInput(schema, NamedType(n), v)
  }

  /** The fields of an input object are an index map. */
  ghost predicate DistinctInputs(schema: Schema) {
    forall n, i, j :: IsInputObject(schema, n) && 0 <= i < j < |InputsOf(schema, n)| ==>
      InputsOf(schema, n)[i].name != InputsOf(schema, n)[j].name
  }

  // ----- the exact condition, in every schema -----

  /** The named type inside non-null wrappers, however many; a list has none. */
  function NamedCore(t: TypeRef): Option<Name> {
    match t
    case NamedType(name) => Some(name)
    case NonNull(inner) => NamedCore(inner)
    case ListOf(_) => None
  }

  /** A type other than an input object that no value passes: it is missing, an enum without items, or a
      scalar whose validator accepts nothing. */
  ghost predicate DeadEnd(schema: Schema, n: Name) {
    n !in schema.types ||
    match schema.types[n]
    case EnumType(values) => values == {}
    case ScalarType(validator) => forall v: Value :: !v.Null? ==> !Validates(validator, v)
    case _ => false
  }

  /** A non-null value of this type can be had without the objects of `without`. */
  ghost predicate Available(schema: Schema, t: TypeRef, without: set<Name>) {
    match NamedCore(t)
    case None => true
    case Some(n) => n !in without && !DeadEnd(schema, n)
  }

  /** An input object can be built without the objects of `without`: all its required fields can, or, for
      a oneof, one field can and no other is required. */
  ghost predicate Buildable(schema: Schema, n: Name, without: set<Name>)
    requires IsInputObject(schema, n)
  {
    var inputs := InputsOf(schema, n);
    if schema.types[n].oneof
    then exists i :: 0 <= i < |inputs| && Available(schema, inputs[i].value.ty, without)
                     && forall j :: 0 <= j < |inputs| && j != i ==> !IsRequired(inputs[j].value)
    else forall i :: 0 <= i < |inputs| && IsRequired(inputs[i].value) ==>
           Available(schema, inputs[i].value.ty, without)
  }

  /** A set of input objects none of which can be built without another one of the set. */
  ghost predicate Blocked(schema: Schema, objects: set<Name>) {
    forall n :: n in objects ==> IsInputObject(schema, n) && !Buildable(schema, n, objects)
  }

  /** A non-null value is valid at a type exactly when it is at the named type inside. */
  lemma {:induction false} ValidAtCore(schema: Schema, t: TypeRef, v: Value)
    requires !v.Null? && NamedCore(t).Some?
    ensures ValidInput(schema, t, v) <==> ValidInput(schema, NamedType(NamedCore(t).value), v)
  {
    if t.NonNull? {
      ValidAtCore(schema, t.inner, v);
    }
  }

  lemma {:induction false} ListIsFree(schema: Schema, t: TypeRef)
    requires NamedCore(t).None?
    ensures ValidInput(schema, t, List([]))
  {
    if t.NonNull? {
      ListIsFree(schema, t.inner);
    }
  }

  /** Types other than input objects have a value exactly when they are no dead end. */
  lemma LeafInhabited(schema: Schema, n: Name)
    requires !IsInputObject(schema, n)
    ensures Inhabited(schema, n) <==> !DeadEnd(schema, n)
  {
    if !DeadEnd(schema, n) {
      var def := schema.types[n];
      if def.EnumType? {
        var item :| item in def.values;
        assert ValidInput(schema, NamedType(n), Enum(item));
      } else if def.ScalarType? {
        var v: Value :| !v.Null? && Validates(def.validator, v);
        assert ValidInput(schema, NamedType(n), v);
      } else {
        assert ValidInput(schema, NamedType(n), String(""));
      }
    }
  }

  /** A value without a null, for a type that is available without the empty objects. */
  lemma AvailableHasValue(schema: Schema, t: TypeRef, without: set<Name>) returns (v: Value)
    requires Available(schema, t, without)
    requires forall m :: IsInputObject(schema, m) && m !in without ==> Inhabited(schema, m)
    ensures !v.Null? && ValidInput(schema, t, v)
  {
    match NamedCore(t)
    case None =>
      v := List([]);
      ListIsFree(schema, t);
    case Some(n) =>
      if !IsInputObject(schema, n) {
        LeafInhabited(schema, n);
      }
      var w: Value :| !w.Null? && ValidInput(schema, NamedType(n), w);
      v := w;
      ValidAtCore(schema, t, v);
  }

  lemma BuildOneof(schema: Schema, n: Name, without: set<Name>)
    requires IsInputObject(schema, n) && schema.types[n].oneof && DistinctInputs(schema)
    requires Buildable(schema, n, without)
    requires forall m :: IsInputObject(schema, m) && m !in without ==> Inhabited(schema, m)
    ensures Inhabited(schema, n)
  {
    var inputs := InputsOf(schema, n);
    var i :| 0 <= i < |inputs| && Available(schema, inputs[i].value.ty, without)
             && forall j :: 0 <= j < |inputs| && j != i ==> !IsRequired(inputs[j].value);
    var w := AvailableHasValue(schema, inputs[i].value.ty, without);
    var fields := [Named(inputs[i].name, w)];
    assert fields[0].name == inputs[i].name;
    assert ValidInput(schema, NamedType(n), Object(fields));
  }

  lemma BuildAll(schema: Schema, n: Name, without: set<Name>)
    requires IsInputObject(schema, n) && !schema.types[n].oneof && DistinctInputs(schema)
    requires Buildable(schema, n, without)
    requires forall m :: IsInputObject(schema, m) && m !in without ==> Inhabited(schema, m)
    ensures Inhabited(schema, n)
  {
    var inputs := InputsOf(schema, n);
    var fields: seq<Named<Value>> := [];
    for k := 0 to |inputs|
      invariant forall i :: 0 <= i < k && IsRequired(inputs[i].value) ==> Supplies(fields, inputs[i].name)
      invariant forall j :: 0 <= j < |fields| ==> exists i :: 0 <= i < k && FieldOf(schema, inputs[i], fields[j])
    {
      if IsRequired(inputs[k].value) {
        var w := AvailableHasValue(schema, inputs[k].value.ty, without);
        var more := fields + [Named(inputs[k].name, w)];
        assert FieldOf(schema, inputs[k], more[|fields|]);
        forall name | name == inputs[k].name || Supplies(fields, name) ensures Supplies(more, name) {
          SuppliesSnoc(fields, more[|fields|], name);
        }
        fields := more;
      }
    }
    forall j | 0 <= j < |fields|
      ensures Declares(inputs, fields[j].name)
      ensures forall i :: 0 <= i < |inputs| && inputs[i].name == fields[j].name ==>
                ValidInput(schema, inputs[i].value.ty, fields[j].value)
    {
      var i :| 0 <= i < |inputs| && FieldOf(schema, inputs[i], fields[j]);
    }
    assert ValidInput(schema, NamedType(n), Object(fields));
  }

  predicate FieldOf(schema: Schema, input: Named<InputField>, field: Named<Value>) {
    field.name == input.name && ValidInput(schema, input.value.ty, field.value)
  }

  lemma SuppliesSnoc(fields: seq<Named<Value>>, field: Named<Value>, name: Name)
    ensures Supplies(fields + [field], name) <==> Supplies(fields, name) || field.name == name
  {
    assert (fields + [field])[|fields|] == field;
    if Supplies(fields, name) {
      var j :| 0 <= j < |fields| && fields[j].name == name;
      assert (fields + [field])[j].name == name;
    }
  }

  /** The types of all fields that are supplied with something other than null are available. */
  ghost predicate AvailableFields(schema: Schema, n: Name, fields: seq<Named<Value>>, without: set<Name>) {
    forall i, j ::
      (0 <= i < |InputsOf(schema, n)| && 0 <= j < |fields|
       && InputsOf(schema, n)[i].name == fields[j].name && !fields[j].value.Null?) ==>
        Available(schema, InputsOf(schema, n)[i].value.ty, without)
  }

  /** Whoever has a value of an object has values for the fields it takes to build it. */
  lemma ValueNeedsFields(schema: Schema, n: Name, without: set<Name>, fields: seq<Named<Value>>)
    requires IsInputObject(schema, n) && DistinctInputs(schema)
    requires ValidInput(schema, NamedType(n), Object(fields)) && AvailableFields(schema, n, fields, without)
    ensures Buildable(schema, n, without)
  {
    if schema.types[n].oneof {
      OneofNeedsField(schema, n, without, fields);
    } else {
      var inputs := InputsOf(schema, n);
      forall i | 0 <= i < |inputs| && IsRequired(inputs[i].value)
        ensures Available(schema, inputs[i].value.ty, without)
      {
        var j :| 0 <= j < |fields| && fields[j].name == inputs[i].name;
        assert ValidInput(schema, inputs[i].value.ty, fields[j].value);
      }
    }
  }

  lemma OneofNeedsField(schema: Schema, n: Name, without: set<Name>, fields: seq<Named<Value>>)
    requires IsInputObject(schema, n) && DistinctInputs(schema) && schema.types[n].oneof
    requires ValidInput(schema, NamedType(n), Object(fields)) && AvailableFields(schema, n, fields, without)
    ensures Buildable(schema, n, without)
  {
    var inputs := InputsOf(schema, n);
    assert Declares(inputs, fields[0].name);
    var i :| 0 <= i < |inputs| && inputs[i].name == fields[0].name;
    assert Available(schema, inputs[i].value.ty, without);
    forall j | 0 <= j < |inputs| && j != i ensures !IsRequired(inputs[j].value) {
      assert inputs[j].name != inputs[i].name;
      assert !Supplies(fields, inputs[j].name);
    }
  }

  lemma {:induction false} BlockedHasNoValue(schema: Schema, objects: set<Name>, n: Name, v: Value)
    requires DistinctInputs(schema) && Blocked(schema, objects) && n in objects && !v.Null?
    ensures !ValidInput(schema, NamedType(n), v)
    decreases v
  {
    if ValidInput(schema, NamedType(n), v) {
      var inputs := InputsOf(schema, n);
      forall i, j | (0 <= i < |inputs| && 0 <= j < |v.fields| && inputs[i].name == v.fields[j].name
                     && !v.fields[j].value.Null?)
        ensures Available(schema, inputs[i].value.ty, objects)
      {
        var ty, w := inputs[i].value.ty, v.fields[j].value;
        if NamedCore(ty).Some? {
          ValidAtCore(schema, ty, w);
          if NamedCore(ty).value in objects {
            BlockedHasNoValue(schema, objects, NamedCore(ty).value, w);
          } else if !IsInputObject(schema, NamedCore(ty).value) {
            LeafInhabited(schema, NamedCore(ty).value);
          }
        }
      }
      ValueNeedsFields(schema, n, objects, v.fields);
    }
  }

  /** In every schema, oneof objects, defaults and repeated non-null included, some value of an input
      object passes validation exactly when the object is in no blocked set. */
  lemma InhabitedIffNotBlocked(schema: Schema, n: Name)
    requires IsInputObject(schema, n) && DistinctInputs(schema)
    ensures Inhabited(schema, n) <==> forall objects :: n in objects ==> !Blocked(schema, objects)
  {
    if Inhabited(schema, n) {
      var v: Value :| !v.Null? && ValidInput(schema, NamedType(n), v);
      forall objects | n in objects ensures !Blocked(schema, objects) {
        if Blocked(schema, objects) {
          BlockedHasNoValue(schema, objects, n, v);
        }
      }
    } else {
      var empty := set m | m in schema.types.Keys && IsInputObject(schema, m) && !Inhabited(schema, m);
      forall m | m in empty ensures !Buildable(schema, m, empty) {
        if Buildable(schema, m, empty) {
          if schema.types[m].oneof {
            BuildOneof(schema, m, empty);
          } else {
            BuildAll(schema, m, empty);
          }
        }
      }
      assert n in empty && Blocked(schema, empty);
    }
  }

  // ----- what fields require, as a schema of its own -----

  function Nullable(t: TypeRef): TypeRef {
    if t.NonNull? then Nullable(t.inner) else t
  }

  /** A field that may be left out requires nothing, and repeated non-null counts once. */
  function Requirement(field: InputField): TypeRef {
    if !IsRequired(field) then Nullable(field.ty)
    else
      match NamedCore(field.ty)
      case Some(n) => NonNull(NamedType(n))
      case None => field.ty
  }

  function RequirementDef(def: TypeDef): TypeDef {
    match def
    case InputObjectType(inputs, oneof) =>
      InputObjectType(
        seq(|inputs|, i requires 0 <= i < |inputs| =>
              Named(inputs[i].name, InputField(Requirement(inputs[i].value), inputs[i].value.hasDefault))),
        oneof)
    case _ => def
  }

  /** The schema with every input field's type replaced by what it requires: the cycle search on it sees
      through repeated non-null and knows about defaults. */
  function Required(schema: Schema): Schema {
    schema.(types := map n | n in schema.types :: RequirementDef(schema.types[n]))
  }

  /** Building an `n` takes a value of `m`. */
  predicate Needs(schema: Schema, n: Name, m: Name) {
    exists i :: 0 <= i < |InputsOf(schema, n)| && IsRequired(InputsOf(schema, n)[i].value)
                && NamedCore(InputsOf(schema, n)[i].value.ty) == Some(m)
  }

  lemma {:induction false} NullableIsNullable(t: TypeRef)
    ensures !Nullable(t).NonNull?
  {
    if t.NonNull? {
      NullableIsNullable(t.inner);
    }
  }

  lemma RequirementName(field: InputField, m: Name)
    ensures NonNullName(Requirement(field)) == Some(m) <==> IsRequired(field) && NamedCore(field.ty) == Some(m)
  {
    NullableIsNullable(field.ty);
    if field.ty.NonNull? && field.ty.inner.NamedType? {
      assert NamedCore(field.ty) == NamedCore(field.ty.inner) == Some(field.ty.inner.name);
    }
  }

  lemma NeedsIsRefers(schema: Schema, n: Name, m: Name)
    ensures Refers(Required(schema), n, m) <==> Needs(schema, n, m)
  {
    var before, after := InputsOf(schema, n), InputsOf(Required(schema), n);
    assert |after| == |before|;
    forall i | 0 <= i < |before|
      ensures NonNullName(after[i].value.ty) == Some(m) <==>
              IsRequired(before[i].value) && NamedCore(before[i].value.ty) == Some(m)
    {
      RequirementName(before[i].value, m);
      assert after[i].value.ty == Requirement(before[i].value);
    }
  }

  lemma DeadEndsRemain(schema: Schema, n: Name)
    ensures DeadEnd(Required(schema), n) <==> DeadEnd(schema, n)
    ensures IsInputObject(Required(schema), n) <==> IsInputObject(schema, n)
  {
    if n in schema.types && !schema.types[n].InputObjectType? {
      assert Required(schema).types[n] == schema.types[n];
    }
  }

  // ----- without oneof: paths of required fields -----

  ghost predicate NoOneof(schema: Schema) {
    forall n :: IsInputObject(schema, n) ==> !schema.types[n].oneof
  }

  ghost predicate NoCycle(schema: Schema) {
    forall n :: IsInputObject(schema, n) ==> !Reaches(schema, n, n, {})
  }

  /** Following references from `n` leads neither into a cycle nor to a dead end. */
  ghost predicate Grounded(schema: Schema, n: Name) {
    forall m :: m == n || Reaches(schema, n, m, {}) ==> !DeadEnd(schema, m) && !Reaches(schema, m, m, {})
  }

  lemma JoinPaths(schema: Schema, a: Name, b: Name, c: Name)
    requires (a == b || Reaches(schema, a, b, {})) && Refers(schema, b, c)
    ensures Reaches(schema, a, c, {})
  {
    if a == b {
      assert PathAvoiding(schema, [b, c], b, c, {});
    } else {
      var p :| PathAvoiding(schema, p, a, b, {});
      var q := p + [c];
      forall i | 0 <= i < |q| - 1 ensures Refers(schema, q[i], q[i + 1]) {
        assert i < |p| - 1 ==> Refers(schema, p[i], p[i + 1]);
      }
      assert PathAvoiding(schema, q, a, c, {});
    }
  }

  /** The first step of a path. */
  lemma FirstStep(schema: Schema, n: Name, goal: Name) returns (m: Name)
    requires Reaches(schema, n, goal, {})
    ensures IsInputObject(schema, n) && Refers(schema, n, m) && (m == goal || Reaches(schema, m, goal, {}))
  {
    var p :| PathAvoiding(schema, p, n, goal, {});
    m := p[1];
    assert Refers(schema, p[0], p[1]);
    if m != goal {
      var q := p[1..];
      forall i | 0 <= i < |q| - 1 ensures Refers(schema, q[i], q[i + 1]) {
        assert Refers(schema, p[i + 1], p[i + 2]);
      }
      assert PathAvoiding(schema, q, m, goal, {});
    }
  }

  lemma ReachFurther(schema: Schema, n: Name, m: Name, goal: Name)
    requires Refers(schema, n, m) && Reaches(schema, m, goal, {})
    ensures Reaches(schema, n, goal, {})
  {
    var p :| PathAvoiding(schema, p, m, goal, {});
    var q := [n] + p;
    forall i | 0 <= i < |q| - 1 ensures Refers(schema, q[i], q[i + 1]) {
      assert i > 0 ==> Refers(schema, p[i - 1], p[i]);
    }
    assert PathAvoiding(schema, q, n, goal, {});
  }

  lemma GroundedNext(schema: Schema, n: Name, m: Name)
    requires Grounded(schema, n) && Refers(schema, n, m)
    ensures Grounded(schema, m)
  {
    JoinPaths(schema, n, n, m);
    forall goal | Reaches(schema, m, goal, {}) ensures Reaches(schema, n, goal, {}) {
      ReachFurther(schema, n, m, goal);
    }
  }

  /** Whoever is not grounded refers to a dead end, or to somebody who is not grounded either. */
  lemma UngroundedNext(schema: Schema, n: Name) returns (m: Name)
    requires IsInputObject(schema, n) && !Grounded(schema, n)
    ensures Refers(schema, n, m) && (DeadEnd(schema, m) || (IsInputObject(schema, m) && !Grounded(schema, m)))
  {
    var g :| (g == n || Reaches(schema, n, g, {})) && (DeadEnd(schema, g) || Reaches(schema, g, g, {}));
    m := FirstStep(schema, n, g);
    if g == n && m != n {
      JoinPaths(schema, m, n, m);
    }
    if !DeadEnd(schema, m) {
      var next := FirstStep(schema, m, if m == g || g == n then m else g);
    }
  }

  /** In a blocked set one required field leads to the next, so, the set being finite, into a cycle, or
      out of it to a dead end. */
  lemma {:induction false} BlockedLeadsAstray(schema: Schema, objects: set<Name>, n: Name, chain: set<Name>)
    requires NoOneof(schema) && Blocked(schema, objects) && n in objects
    requires forall c :: c in chain ==> Reaches(Required(schema), c, n, {})
    ensures !Grounded(Required(schema), n)
    decreases objects - chain
  {
    var r := Required(schema);
    if n !in chain {
      var i :| 0 <= i < |InputsOf(schema, n)| && IsRequired(InputsOf(schema, n)[i].value)
               && !Available(schema, InputsOf(schema, n)[i].value.ty, objects);
      var m := NamedCore(InputsOf(schema, n)[i].value.ty).value;
      NeedsIsRefers(schema, n, m);
      forall c | c in chain + {n} ensures Reaches(r, c, m, {}) {
        JoinPaths(r, c, n, m);
      }
      if DeadEnd(schema, m) {
        assert DeadEnd(r, m);
      } else {
        BlockedLeadsAstray(schema, objects, m, chain + {n});
        if Grounded(r, n) {
          GroundedNext(r, n, m);
        }
      }
    }
  }

  /** Whoever needs a member of the set cannot be built without the set, oneof or not. */
  lemma NeedsBlocks(schema: Schema, n: Name, m: Name, objects: set<Name>)
    requires IsInputObject(schema, n) && Needs(schema, n, m) && (m in objects || DeadEnd(schema, m))
    ensures !Buildable(schema, n, objects)
  {
    var i :| 0 <= i < |InputsOf(schema, n)| && IsRequired(InputsOf(schema, n)[i].value)
             && NamedCore(InputsOf(schema, n)[i].value.ty) == Some(m);
    assert !Available(schema, InputsOf(schema, n)[i].value.ty, objects);
  }

  lemma UngroundedIsBlocked(schema: Schema, n: Name)
    requires IsInputObject(schema, n) && !Grounded(Required(schema), n)
    ensures exists objects :: n in objects && Blocked(schema, objects)
  {
    var r := Required(schema);
    var objects := set m | m in schema.types.Keys && IsInputObject(schema, m) && !Grounded(r, m);
    forall m | m in objects ensures !Buildable(schema, m, objects) {
      var next := UngroundedNext(r, m);
      NeedsIsRefers(schema, m, next);
      NeedsBlocks(schema, m, next, objects);
    }
    assert n in objects && Blocked(schema, objects);
  }

  // ----- the theorems -----

  /** In every schema without oneof objects, some value of a type passes validation exactly when following
      required fields from it leads neither into a cycle nor to a type without values. */
  lemma InhabitedIffGrounded(schema: Schema, n: Name)
    requires NoOneof(schema) && DistinctInputs(schema)
    ensures Inhabited(schema, n) <==> Grounded(Required(schema), n)
  {
    var r := Required(schema);
    if IsInputObject(schema, n) {
      InhabitedIffNotBlocked(schema, n);
      if !Grounded(r, n) {
        UngroundedIsBlocked(schema, n);
      }
      forall objects | n in objects && Blocked(schema, objects) ensures !Grounded(r, n) {
        BlockedLeadsAstray(schema, objects, n, {});
      }
    } else {
      LeafInhabited(schema, n);
      DeadEndsRemain(schema, n);
      forall m ensures !Reaches(r, n, m, {}) {
        OnlyObjectsReach(r, n, m);
      }
    }
  }

  lemma OnlyObjectsReach(schema: Schema, n: Name, m: Name)
    ensures Reaches(schema, n, m, {}) ==> IsInputObject(schema, n)
  {
    if Reaches(schema, n, m, {}) {
      var next := FirstStep(schema, n, m);
    }
  }

  /** An object on a cycle of required fields has no value, in any schema. */
  lemma RejectedIsEmpty(schema: Schema, n: Name)
    requires Reaches(Required(schema), n, n, {}) && DistinctInputs(schema)
    ensures !Inhabited(schema, n)
  {
    var r := Required(schema);
    var cycle := set m | m in schema.types.Keys && IsInputObject(schema, m) && OnCycle(r, n, m);
    forall m | m in cycle ensures !Buildable(schema, m, cycle) {
      var next := FirstStep(r, m, n);
      JoinPaths(r, n, m, next);
      OnlyObjectsReach(r, next, n);
      NeedsIsRefers(schema, m, next);
      NeedsBlocks(schema, m, next, cycle);
    }
    OnlyObjectsReach(r, n, n);
    assert n in cycle && Blocked(schema, cycle);
    InhabitedIffNotBlocked(schema, n);
  }

  ghost predicate OnCycle(schema: Schema, n: Name, m: Name) {
    Reaches(schema, n, m, {}) && Reaches(schema, m, n, {})
  }

  /** No field requires an enum without items, or a scalar whose validator accepts nothing. */
  ghost predicate NoEmptyLeafRequired(schema: Schema) {
    forall n, m :: Needs(schema, n, m) && m in schema.types ==> !DeadEnd(schema, m)
  }

  ghost predicate AllInhabited(schema: Schema) {
    forall n :: IsInputObject(schema, n) ==> Inhabited(schema, n)
  }

  lemma NeededExists(schema: Schema, n: Name, m: Name)
    requires CheckTypesExist(schema) && Needs(schema, n, m)
    ensures m in schema.types
  {
    var i :| 0 <= i < |InputsOf(schema, n)| && IsRequired(InputsOf(schema, n)[i].value)
             && NamedCore(InputsOf(schema, n)[i].value.ty) == Some(m);
    CoreIsName(InputsOf(schema, n)[i].value.ty);
    assert TypeExists(schema, schema.types[n]);
  }

  lemma {:induction false} CoreIsName(t: TypeRef)
    ensures NamedCore(t).Some? ==> NamedCore(t).value == TypeName(t)
  {
    if t.NonNull? {
      CoreIsName(t.inner);
    }
  }

  lemma AllGroundedIff(schema: Schema)
    requires CheckTypesExist(schema)
    ensures (forall n :: IsInputObject(schema, n) ==> Grounded(Required(schema), n)) <==>
            NoCycle(Required(schema)) && NoEmptyLeafRequired(schema)
  {
    var r := Required(schema);
    if NoCycle(r) && NoEmptyLeafRequired(schema) {
      forall n | IsInputObject(schema, n) ensures Grounded(r, n) {
        if !Grounded(r, n) {
          AcyclicReachesDeadEnd(schema, n);
        }
      }
    }
    forall n ensures IsInputObject(r, n) <==> IsInputObject(schema, n) {
      DeadEndsRemain(schema, n);
    }
    if forall n :: IsInputObject(schema, n) ==> Grounded(r, n) {
      forall n, m | Needs(schema, n, m) && m in schema.types ensures !DeadEnd(schema, m) {
        NeedsIsRefers(schema, n, m);
        JoinPaths(r, n, n, m);
        DeadEndsRemain(schema, m);
      }
    }
  }

  /** Without a cycle, an object that is not grounded reaches an object that requires a dead end. */
  lemma AcyclicReachesDeadEnd(schema: Schema, n: Name)
    requires CheckTypesExist(schema) && NoCycle(Required(schema))
    requires IsInputObject(schema, n) && !Grounded(Required(schema), n)
    ensures !NoEmptyLeafRequired(schema)
  {
    var r := Required(schema);
    var g :| (g == n || Reaches(r, n, g, {})) && (DeadEnd(r, g) || Reaches(r, g, g, {}));
    OnlyObjectsReach(r, g, g);
    var p :| PathAvoiding(r, p, n, g, {});
    assert Refers(r, p[|p| - 2], g);
    NeedsIsRefers(schema, p[|p| - 2], g);
    NeededExists(schema, p[|p| - 2], g);
  }

  /** In a schema without oneof objects whose types exist, all input objects have values exactly when no
      cycle of required fields is left, and no field requires a leaf type without values. */
  lemma AllInhabitedIff(schema: Schema)
    requires CheckTypesExist(schema) && NoOneof(schema) && DistinctInputs(schema)
    ensures AllInhabited(schema) <==> NoCycle(Required(schema)) && NoEmptyLeafRequired(schema)
  {
    AllGroundedIff(schema);
    forall n ensures Inhabited(schema, n) <==> Grounded(Required(schema), n) {
      InhabitedIffGrounded(schema, n);
    }
  }

  /** No input field's type puts non-null directly inside non-null. */
  ghost predicate FlatInputs(schema: Schema) {
    forall n, i :: IsInputObject(schema, n) && 0 <= i < |InputsOf(schema, n)| ==> Flat(InputsOf(schema, n)[i].value.ty)
  }

  predicate Flat(t: TypeRef) {
    match t
    case NamedType(_) => true
    case NonNull(inner) => !inner.NonNull? && Flat(inner)
    case ListOf(inner) => Flat(inner)
  }

  /** No field that is not nullable has a default. */
  ghost predicate NoDefaults(schema: Schema) {
    forall n, i :: IsInputObject(schema, n) && 0 <= i < |InputsOf(schema, n)| && InputsOf(schema, n)[i].value.hasDefault
      ==> IsNullable(InputsOf(schema, n)[i].value.ty)
  }

  lemma FlatNeedsRefers(schema: Schema, n: Name, m: Name)
    requires FlatInputs(schema)
    ensures Needs(schema, n, m) ==> Refers(schema, n, m)
    ensures NoDefaults(schema) && Refers(schema, n, m) ==> Needs(schema, n, m)
  {
    forall i | 0 <= i < |InputsOf(schema, n)|
      ensures var field := InputsOf(schema, n)[i].value;
              && (IsRequired(field) && NamedCore(field.ty) == Some(m) ==> NonNullName(field.ty) == Some(m))
              && (NonNullName(field.ty) == Some(m) ==> NamedCore(field.ty) == Some(m) && !IsNullable(field.ty))
    {
      var field := InputsOf(schema, n)[i].value;
      assert Flat(field.ty);
      if field.ty.NonNull? {
        assert NamedCore(field.ty) == NamedCore(field.ty.inner) && !field.ty.inner.NonNull?;
      }
    }
  }

  lemma ReachesAlso(a: Schema, b: Schema, n: Name, m: Name)
    requires forall u, v :: Refers(a, u, v) ==> Refers(b, u, v)
    ensures Reaches(a, n, m, {}) ==> Reaches(b, n, m, {})
  {
    if Reaches(a, n, m, {}) {
      var p :| PathAvoiding(a, p, n, m, {});
      assert PathAvoiding(b, p, n, m, {});
    }
  }

  lemma FlatCyclesSeen(schema: Schema)
    requires FlatInputs(schema)
    ensures NoCycle(schema) ==> NoCycle(Required(schema))
    ensures NoDefaults(schema) ==> (NoCycle(schema) <==> NoCycle(Required(schema)))
  {
    var r := Required(schema);
    forall u, v ensures Refers(r, u, v) ==> Refers(schema, u, v)
                ensures NoDefaults(schema) && Refers(schema, u, v) ==> Refers(r, u, v)
    {
      NeedsIsRefers(schema, u, v);
      FlatNeedsRefers(schema, u, v);
    }
    forall n
      ensures Reaches(r, n, n, {}) ==> Reaches(schema, n, n, {})
      ensures NoDefaults(schema) && Reaches(schema, n, n, {}) ==> Reaches(r, n, n, {})
    {
      ReachesAlso(r, schema, n, n);
      if NoDefaults(schema) {
        ReachesAlso(schema, r, n, n);
      }
    }
  }

  /** The checks accept a schema without oneof objects.  Then every input object has a value exactly when
      there is no cycle behind repeated non-null, and no field requires a leaf type without values; and
      where non-null is not repeated there is no such cycle. */
  lemma CheckedObjectsInhabited(schema: Schema)
    requires Accepted(schema) && NoOneof(schema) && DistinctInputs(schema)
    ensures AllInhabited(schema) <==> NoCycle(Required(schema)) && NoEmptyLeafRequired(schema)
    ensures FlatInputs(schema) ==> NoCycle(Required(schema))
  {
    AllInhabitedIff(schema);
    if FlatInputs(schema) {
      FlatCyclesSeen(schema);
    }
  }

  /** Without oneof objects, repeated non-null, defaults for non-null fields, and required leaf types
      without values, the cycle search accepts all input objects exactly when all of them have values. */
  lemma AcceptedIffInhabited(schema: Schema)
    requires CheckTypesExist(schema) && NoOneof(schema) && DistinctInputs(schema)
    requires FlatInputs(schema) && NoDefaults(schema) && NoEmptyLeafRequired(schema)
    ensures NoCycle(schema) <==> AllInhabited(schema)
  {
    AllInhabitedIff(schema);
    FlatCyclesSeen(schema);
  }

  // ----- what escapes the search -----

  /** A query object with one field of a leaf type, and one input object with one field. */
  function Small(query: Name, n: Name, leaf: Name, def: TypeDef, field: InputField, oneof: bool): Schema {
    Schema(map[query := ObjectType(map["ok" := FieldDef(NamedType(leaf), map[])], {}),
               n := InputObjectType([Named("item", field)], oneof),
               leaf := def],
           map[], query, None, None, false)
  }

  /** Everything about such a schema is in order, but for the cycle search. */
  lemma SmallChecked(query: Name, n: Name, leaf: Name, def: TypeDef, field: InputField, oneof: bool)
    requires query != n && query != leaf && n != leaf && (def.ScalarType? || def.EnumType?)
    requires TypeName(field.ty) == n || TypeName(field.ty) == leaf
    requires oneof ==> IsNullable(field.ty) && !field.hasDefault
    ensures var schema := Small(query, n, leaf, def, field, oneof);
            && CheckTypesExist(schema) && CheckRootTypes(schema) && CheckOutputTypes(schema)
            && InputsOf(schema, n) == [Named("item", field)] && InputFieldOk(schema, oneof, Named("item", field))
            && (forall m :: IsInputObject(schema, m) <==> m == n) && DistinctInputs(schema)
  {
    var schema := Small(query, n, leaf, def, field, oneof);
    var fields := map["ok" := FieldDef(NamedType(leaf), map[])];
    assert "ok"[0] != "__"[0] && "item"[0] != "__"[0];
    assert fields.Keys == {"ok"} && TypeName(NamedType(leaf)) == leaf;
    assert FieldsExist(schema, fields) && TypeExists(schema, schema.types[n]);
    assert FieldsOk(schema, fields);
    assert fields != map[] by { assert "ok" in fields; }
    assert OutputTypeOk(schema, query, schema.types[query]);
  }

  /** The search accepts it unless the field is exactly a non-null reference to the object itself. */
  lemma SmallAccepted(query: Name, n: Name, leaf: Name, def: TypeDef, field: InputField, oneof: bool)
    requires query != n && query != leaf && n != leaf && (def.ScalarType? || def.EnumType?)
    requires TypeName(field.ty) == n || TypeName(field.ty) == leaf
    requires oneof ==> IsNullable(field.ty) && !field.hasDefault
    requires NonNullName(field.ty) != Some(n)
    ensures Accepted(Small(query, n, leaf, def, field, oneof))
  {
    var schema := Small(query, n, leaf, def, field, oneof);
    SmallChecked(query, n, leaf, def, field, oneof);
    ReachesStep(schema, n, n, {});
    forall m | Refers(schema, n, m) ensures m != n && !Reaches(schema, m, n, {} + {m}) {
      NamesAgree(field.ty);
      LeafReachesNothing(schema, m, n, {} + {m});
    }
  }

  lemma NamesAgree(t: TypeRef)
    ensures NonNullName(t).Some? ==> TypeName(t) == NonNullName(t).value
  {
    if NonNullName(t).Some? {
      assert TypeName(t.inner) == t.inner.name;
    }
  }

  lemma SmallEmpty(query: Name, n: Name, leaf: Name, def: TypeDef, field: InputField, oneof: bool)
    requires query != n && query != leaf && n != leaf && (def.ScalarType? || def.EnumType?)
    requires TypeName(field.ty) == n || TypeName(field.ty) == leaf
    requires oneof ==> IsNullable(field.ty) && !field.hasDefault
    requires oneof || IsRequired(field)
    requires NamedCore(field.ty).Some?
    requires var core := NamedCore(field.ty).value;
             core == n || (core == leaf && DeadEnd(Small(query, n, leaf, def, field, oneof), leaf))
    ensures !Inhabited(Small(query, n, leaf, def, field, oneof), n)
  {
    var schema := Small(query, n, leaf, def, field, oneof);
    SmallChecked(query, n, leaf, def, field, oneof);
    assert !Available(schema, InputsOf(schema, n)[0].value.ty, {n});
    assert Blocked(schema, {n});
    InhabitedIffNotBlocked(schema, n);
  }

  /** Non-null inside non-null escapes the search: all checks accept this schema, and no value of its
      input object passes validation. */
  lemma DoubleNonNullEscapes(query: Name, n: Name, leaf: Name)
    requires query != n && query != leaf && n != leaf
    ensures var field := InputField(NonNull(NonNull(NamedType(n))), false);
            var schema := Small(query, n, leaf, ScalarType(None), field, false);
            Accepted(schema) && IsInputObject(schema, n) && !Inhabited(schema, n)
  {
    var field := InputField(NonNull(NonNull(NamedType(n))), false);
    CoreOfWrapped(n);
    SmallAccepted(query, n, leaf, ScalarType(None), field, false);
    SmallEmpty(query, n, leaf, ScalarType(None), field, false);
  }

  lemma CoreOfWrapped(n: Name)
    ensures TypeName(NonNull(NamedType(n))) == n && NamedCore(NonNull(NamedType(n))) == Some(n)
    ensures TypeName(NonNull(NonNull(NamedType(n)))) == n && NamedCore(NonNull(NonNull(NamedType(n)))) == Some(n)
  {
    assert NamedCore(NamedType(n)) == Some(n) && TypeName(NamedType(n)) == n;
    assert NamedCore(NonNull(NamedType(n))) == Some(n) && TypeName(NonNull(NamedType(n))) == n;
  }

  /** So does a oneof object whose only member is itself. */
  lemma OneofEscapes(query: Name, n: Name, leaf: Name)
    requires query != n && query != leaf && n != leaf
    ensures var schema := Small(query, n, leaf, ScalarType(None), InputField(NamedType(n), false), true);
            Accepted(schema) && IsInputObject(schema, n) && !Inhabited(schema, n)
  {
    SmallAccepted(query, n, leaf, ScalarType(None), InputField(NamedType(n), false), true);
    SmallEmpty(query, n, leaf, ScalarType(None), InputField(NamedType(n), false), true);
  }

  /** So does a required enum without items, which can be declared and is never rejected. */
  lemma EmptyEnumEscapes(query: Name, n: Name, leaf: Name)
    requires query != n && query != leaf && n != leaf
    ensures var schema := Small(query, n, leaf, EnumType({}), InputField(NonNull(NamedType(leaf)), false), false);
            Accepted(schema) && IsInputObject(schema, n) && !Inhabited(schema, n)
  {
    CoreOfWrapped(leaf);
    SmallAccepted(query, n, leaf, EnumType({}), InputField(NonNull(NamedType(leaf)), false), false);
    SmallEmpty(query, n, leaf, EnumType({}), InputField(NonNull(NamedType(leaf)), false), false);
  }

  /** So does a required scalar whose validator accepts nothing. */
  lemma EmptyScalarEscapes(query: Name, n: Name, leaf: Name)
    requires query != n && query != leaf && n != leaf
    ensures var def := ScalarType(Some(_ => false));
            var schema := Small(query, n, leaf, def, InputField(NonNull(NamedType(leaf)), false), false);
            Accepted(schema) && IsInputObject(schema, n) && !Inhabited(schema, n)
  {
    var def := ScalarType(Some(_ => false));
    CoreOfWrapped(leaf);
    SmallAccepted(query, n, leaf, def, InputField(NonNull(NamedType(leaf)), false), false);
    SmallEmpty(query, n, leaf, def, InputField(NonNull(NamedType(leaf)), false), false);
  }

  /** And the other way round: the search rejects an object that needs itself only by a field with a
      default, although the empty object passes validation. */
  lemma DefaultRejected(query: Name, n: Name, leaf: Name)
    requires query != n && query != leaf && n != leaf
    ensures var schema := Small(query, n, leaf, ScalarType(None), InputField(NonNull(NamedType(n)), true), false);
            && CheckTypesExist(schema) && CheckRootTypes(schema) && CheckOutputTypes(schema)
            && Reaches(schema, n, n, {}) && !Accepted(schema) && Inhabited(schema, n)
  {
    var field := InputField(NonNull(NamedType(n)), true);
    var schema := Small(query, n, leaf, ScalarType(None), field, false);
    CoreOfWrapped(n);
    SmallChecked(query, n, leaf, ScalarType(None), field, false);
    assert NonNullName(InputsOf(schema, n)[0].value.ty) == Some(n);
    assert Refers(schema, n, n);
    JoinPaths(schema, n, n, n);
    assert ValidInput(schema, NamedType(n), Object([]));
  }
}
