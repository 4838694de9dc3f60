/** Input objects of a dynamic schema: the search for reference cycles and the other rules for them, and
    the checks of a schema all together. */
module InputObjects {
  import opened Wrappers
  import opened Document
  import opened TypeRefs
  import opened DynamicSchema

  // ----- the reference graph -----

  /** `typeref_nonnullable_name`: the type is exactly a non-null named type. */
  function NonNullName(t: TypeRef): Option<Name> {
    match t
    case NonNull(NamedType(name)) => Some(name)
    case _ => None
  }

  predicate IsInputObject(schema: Schema, n: Name) {
    n in schema.types && schema.types[n].InputObjectType?
  }

  function InputsOf(schema: Schema, n: Name): seq<Named<InputField>> {
    if IsInputObject(schema, n) then schema.types[n].inputs else []
  }

  /** `v` is required to build a `u`. */
  predicate Refers(schema: Schema, u: Name, v: Name) {
    exists i :: 0 <= i < |InputsOf(schema, u)| && NonNullName(InputsOf(schema, u)[i].value.ty) == Some(v)
  }

  ghost predicate IsPath(schema: Schema, p: seq<Name>) {
    2 <= |p| && forall i :: 0 <= i < |p| - 1 ==> Refers(schema, p[i], p[i + 1])
  }

  /** From `n` to `goal` through references, with no input object of `avoid` in between. */
  ghost predicate PathAvoiding(schema: Schema, p: seq<Name>, n: Name, goal: Name, avoid: set<Name>) {
    && IsPath(schema, p) && p[0] == n && p[|p| - 1] == goal
    && forall i :: 1 <= i < |p| - 1 ==> p[i] !in avoid
  }

  ghost predicate Reaches(schema: Schema, n: Name, goal: Name, avoid: set<Name>) {
    exists p :: PathAvoiding(schema, p, n, goal, avoid)
  }

  /** A path that comes back to its start can be cut short there. */
  lemma {:induction false} CutAtStart(schema: Schema, p: seq<Name>, n: Name, goal: Name, avoid: set<Name>)
    requires PathAvoiding(schema, p, n, goal, avoid)
    ensures Reaches(schema, n, goal, avoid + {n})
    decreases |p|
  {
    if exists i :: 1 <= i < |p| - 1 && p[i] == n {
      var i :| 1 <= i < |p| - 1 && p[i] == n;
      forall j | 0 <= j < |p[i..]| - 1 ensures Refers(schema, p[i..][j], p[i..][j + 1]) {
        assert Refers(schema, p[i + j], p[i + j + 1]);
      }
      CutAtStart(schema, p[i..], n, goal, avoid);
    } else {
      assert PathAvoiding(schema, p, n, goal, avoid + {n});
    }
  }

  /** Reaching the goal means referring to it, or referring to an input object outside `avoid` that
      reaches it without coming back to itself: so looking at simple paths is enough. */
  lemma ReachesStep(schema: Schema, n: Name, goal: Name, avoid: set<Name>)
    ensures Reaches(schema, n, goal, avoid) <==>
            Refers(schema, n, goal) ||
            exists v :: Refers(schema, n, v) && v !in avoid && Reaches(schema, v, goal, avoid + {v})
  {
    if Reaches(schema, n, goal, avoid) && !Refers(schema, n, goal) {
      var p :| PathAvoiding(schema, p, n, goal, avoid);
      assert Refers(schema, p[0], p[1]);
      assert |p| > 2;
      var tail := p[1..];
      forall j | 0 <= j < |tail| - 1 ensures Refers(schema, tail[j], tail[j + 1]) {
        assert Refers(schema, p[j + 1], p[j + 2]);
      }
      assert PathAvoiding(schema, tail, p[1], goal, avoid);
      CutAtStart(schema, tail, p[1], goal, avoid);
    }
    if Refers(schema, n, goal) {
      assert PathAvoiding(schema, [n, goal], n, goal, avoid);
    }
    forall v | Refers(schema, n, v) && v !in avoid && Reaches(schema, v, goal, avoid + {v})
      ensures Reaches(schema, n, goal, avoid)
    {
      var q :| PathAvoiding(schema, q, v, goal, avoid + {v});
      var p := [n] + q;
      forall j | 0 <= j < |p| - 1 ensures Refers(schema, p[j], p[j + 1]) {
        assert j > 0 ==> Refers(schema, q[j - 1], q[j]);
      }
      assert PathAvoiding(schema, p, n, goal, avoid);
    }
  }

  // ----- check_input_object_reference -----

  class ReferenceSearch {
    const schema: Schema
    var refChain: set<Name>

    constructor (s: Schema)
      ensures schema == s && refChain == {}
    {
      schema, refChain := s, {};
    }

    /** The backtracking search.  It fails exactly when `current` can be reached from `n` around the
        chain of objects being visited, and otherwise leaves the chain as it found it. */
    method Check(current: Name, n: Name) returns (ok: bool)
      requires IsInputObject(schema, n)
      modifies this
      ensures !ok <==> Reaches(schema, n, current, old(refChain))
      ensures ok ==> refChain == old(refChain)
      decreases schema.types.Keys - refChain
    {
      var fields := InputsOf(schema, n);
      for i := 0 to |fields|
        invariant refChain == old(refChain)
        invariant forall j :: 0 <= j < i ==> NonNullName(fields[j].value.ty) != Some(current)
        invariant forall j :: 0 <= j < i && NonNullName(fields[j].value.ty).Some? ==>
                    var v := NonNullName(fields[j].value.ty).value;
                    v in refChain || !Reaches(schema, v, current, refChain + {v})
      {
        match NonNullName(fields[i].value.ty) {
          case None =>
          case Some(name) =>
            assert Refers(schema, n, name);
            if name == current {
              ReachesStep(schema, n, current, refChain);
              return false;
            } else if IsInputObject(schema, name) {
              if name !in refChain {
                refChain := refChain + {name};
                ok := Check(current, name);
                if !ok {
                  ReachesStep(schema, n, current, old(refChain));
                  return;
                }
                refChain := refChain - {name};
              }
            } else {
              LeafReachesNothing(schema, name, current, refChain + {name});
            }
        }
      }
      ReachesStep(schema, n, current, refChain);
      ok := true;
    }
  }

  lemma LeafReachesNothing(schema: Schema, v: Name, goal: Name, avoid: set<Name>)
    requires !IsInputObject(schema, v)
    ensures !Reaches(schema, v, goal, avoid)
  {
    forall p ensures !PathAvoiding(schema, p, v, goal, avoid) {
      assert 2 <= |p| && p[0] == v ==> !Refers(schema, p[0], p[1]);
    }
  }

  /** Started at an input object with an empty chain, the search fails exactly when the object reaches
      itself through fields typed as a non-null named input object. */
  method CheckReference(schema: Schema, n: Name) returns (ok: bool)
    requires IsInputObject(schema, n)
    ensures ok <==> !Reaches(schema, n, n, {})
  {
    var search := new ReferenceSearch(schema);
    ok := search.Check(n, n);
  }

  // ----- check_input_objects -----

  predicate InputFieldOk(schema: Schema, oneof: bool, field: Named<InputField>) {
    && !IsReserved(field.name)
    && (TypeName(field.value.ty) in schema.types ==> IsInputType(schema.types[TypeName(field.value.ty)]))
    && (oneof ==> IsNullable(field.value.ty) && !field.value.hasDefault)
  }

  ghost predicate InputObjectOk(schema: Schema, n: Name)
    requires IsInputObject(schema, n)
  {
    && (forall i :: 0 <= i < |InputsOf(schema, n)| ==>
          InputFieldOk(schema, schema.types[n].oneof, InputsOf(schema, n)[i]))
    && !Reaches(schema, n, n, {})
  }

  /** The loop over all types; `order` is the order the schema holds them in. */
  method CheckInputObjects(schema: Schema, order: seq<Name>) returns (ok: bool)
    requires forall n :: n in order <==> n in schema.types
    ensures ok <==> forall n :: IsInputObject(schema, n) ==> InputObjectOk(schema, n)
  {
    for i := 0 to |order|
      invariant forall j :: 0 <= j < i && IsInputObject(schema, order[j]) ==> InputObjectOk(schema, order[j])
    {
      var n := order[i];
      match schema.types[n] {
        case InputObjectType(inputs, oneof) =>
          for k := 0 to |inputs|
            invariant forall j :: 0 <= j < k ==> InputFieldOk(schema, oneof, inputs[j])
          {
            if !InputFieldOk(schema, oneof, inputs[k]) {
              assert !InputFieldOk(schema, schema.types[n].oneof, InputsOf(schema, n)[k]);
              assert !InputObjectOk(schema, n);
              return false;
            }
          }
          ok := CheckReference(schema, n);
          if !ok {
            assert !InputObjectOk(schema, n);
            return;
          }
        case _ =>
      }
    }
    ok := true;
  }

  /** A schema that passes all checks made when it is built. */
  ghost predicate Accepted(schema: Schema) {
    && CheckTypesExist(schema) && CheckRootTypes(schema) && CheckOutputTypes(schema)
    && forall n :: IsInputObject(schema, n) ==> InputObjectOk(schema, n)
  }
}
