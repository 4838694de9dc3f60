/** Type references of a dynamic schema, and the order `is_subtype` puts on them. */
module TypeRefs {
  import opened Document

  datatype TypeRef = NamedType(name: Name) | NonNull(inner: TypeRef) | ListOf(inner: TypeRef)

  function TypeName(t: TypeRef): Name {
    match t
    case NamedType(name) => name
    case NonNull(inner) => TypeName(inner)
    case ListOf(inner) => TypeName(inner)
  }

  predicate IsNullable(t: TypeRef) {
    !t.NonNull?
  }

  /** `cur.is_subtype(sub)`: `sub` is `cur` with some parts, at any depth, made non-null.  So the
      receiver is the wider type. */
  predicate IsSubtype(cur: TypeRef, sub: TypeRef) {
    match (cur, sub)
    case (NonNull(wide), NonNull(narrow)) => IsSubtype(wide, narrow)
    case (_, NonNull(narrow)) => IsSubtype(cur, narrow)
    case (NamedType(wide), NamedType(narrow)) => wide == narrow
    case (ListOf(wide), ListOf(narrow)) => IsSubtype(wide, narrow)
    case _ => false
  }

  lemma {:induction false} SubtypeReflexive(a: TypeRef)
    ensures IsSubtype(a, a)
  {
    if !a.NamedType? {
      SubtypeReflexive(a.inner);
    }
  }

  function Layers(t: TypeRef): nat {
    match t
    case NamedType(_) => 1
    case NonNull(inner) => 1 + Layers(inner)
    case ListOf(inner) => 1 + Layers(inner)
  }

  lemma {:induction false} SubtypeAddsLayers(a: TypeRef, b: TypeRef)
    requires IsSubtype(a, b)
    ensures Layers(a) <= Layers(b) && TypeName(a) == TypeName(b)
    decreases b
  {
    if a.NonNull? && b.NonNull? {
      SubtypeAddsLayers(a.inner, b.inner);
    } else if b.NonNull? {
      SubtypeAddsLayers(a, b.inner);
    } else if b.ListOf? {
      SubtypeAddsLayers(a.inner, b.inner);
    }
  }

  lemma {:induction false} SubtypeAntisymmetric(a: TypeRef, b: TypeRef)
    requires IsSubtype(a, b) && IsSubtype(b, a)
    ensures a == b
  {
    if a.NonNull? && b.NonNull? {
      SubtypeAntisymmetric(a.inner, b.inner);
    } else if a.ListOf? {
      SubtypeAntisymmetric(a.inner, b.inner);
    }
  }

  lemma {:induction false} SubtypeTransitive(a: TypeRef, b: TypeRef, c: TypeRef)
    requires IsSubtype(a, b) && IsSubtype(b, c)
    ensures IsSubtype(a, c)
    decreases Layers(a) + Layers(b) + Layers(c)
  {
    if c.NonNull? {
      if a.NonNull? && b.NonNull? {
        SubtypeTransitive(a.inner, b.inner, c.inner);
      } else if b.NonNull? {
        SubtypeTransitive(a, b.inner, c.inner);
      } else {
        SubtypeTransitive(a, b, c.inner);
      }
    } else if c.ListOf? {
      SubtypeTransitive(a.inner, b.inner, c.inner);
    }
  }

  /** How often non-null stands before each list, and before the name. */
  function NonNulls(t: TypeRef): (counts: seq<nat>)
    ensures counts != []
  {
    match t
    case NamedType(_) => [0]
    case NonNull(inner) => NonNulls(inner)[0 := NonNulls(inner)[0] + 1]
    case ListOf(inner) => [0] + NonNulls(inner)
  }

  /** The order, without recursion: the same name and lists, and nowhere more non-null. */
  lemma {:induction false} SubtypeByLayers(a: TypeRef, b: TypeRef)
    ensures IsSubtype(a, b) <==>
            && TypeName(a) == TypeName(b) && |NonNulls(a)| == |NonNulls(b)|
            && forall i :: 0 <= i < |NonNulls(a)| ==> NonNulls(a)[i] <= NonNulls(b)[i]
    decreases b
  {
    var p, q := NonNulls(a), NonNulls(b);
    if b.NonNull? {
      SubtypeByLayers(if a.NonNull? then a.inner else a, b.inner);
      var p', q' := NonNulls(if a.NonNull? then a.inner else a), NonNulls(b.inner);
      assert |p'| == |p| && |q'| == |q|;
      assert p'[0] <= q'[0] <==> p[0] <= q[0] by {
        NullableFirst(a);
      }
      assert forall i :: 1 <= i < |p| ==> p[i] == p'[i];
      assert forall i :: 1 <= i < |q| ==> q[i] == q'[i];
    } else if a.ListOf? && b.ListOf? {
      SubtypeByLayers(a.inner, b.inner);
      assert p[1..] == NonNulls(a.inner) && q[1..] == NonNulls(b.inner);
      assert forall i :: 1 <= i < |p| ==> p[i] == p[1..][i - 1];
      assert forall i :: 1 <= i < |q| ==> q[i] == q[1..][i - 1];
      assert forall i :: 0 <= i < |p| - 1 ==> p[1..][i] == p[i + 1];
      assert forall i :: 0 <= i < |q| - 1 ==> q[1..][i] == q[i + 1];
    } else if a.NonNull? {
      assert p[0] > 0 && q[0] == 0;
    }
  }

  lemma NullableFirst(t: TypeRef)
    ensures !t.NonNull? <==> NonNulls(t)[0] == 0
  {}
}
