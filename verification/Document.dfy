/** Executable documents: operations, fragments, and the selections inside them. */
module Document {
  import opened Wrappers

  type Name = string

  /** An argument, or a field of an object value. */
  datatype Named<+T> = Named(name: Name, value: T)

  /** A value written in a document; it may mention variables. */
  datatype InputValue =
    | Variable(name: Name)
    | NullInput
    | NumberInput(number: int)
    | StringInput(text: string)
    | BooleanInput(truth: bool)
    | BinaryInput(bytes: seq<bv8>)
    | EnumInput(item: Name)
    | ListInput(items: seq<InputValue>)
    | ObjectInput(fields: seq<Named<InputValue>>)

  /** A value without variables. */
  datatype Value =
    | Null
    | Number(number: int)
    | String(text: string)
    | Boolean(truth: bool)
    | Binary(bytes: seq<bv8>)
    | Enum(item: Name)
    | List(items: seq<Value>)
    | Object(fields: seq<Named<Value>>)

  datatype Directive = Directive(name: Name, arguments: seq<Named<InputValue>>)

  datatype Selection =
    | Field(alias: Option<Name>, name: Name, arguments: seq<Named<InputValue>>,
            directives: seq<Directive>, items: seq<Selection>)
    | FragmentSpread(fragment: Name, directives: seq<Directive>)
    | InlineFragment(condition: Option<Name>, directives: seq<Directive>, items: seq<Selection>)

  datatype Fragment = Fragment(condition: Name, items: seq<Selection>)

  type Fragments = map<Name, Fragment>

  datatype VariableDefinition = VariableDefinition(name: Name, defaultValue: Option<Value>)

  datatype Operation = Operation(variables: seq<VariableDefinition>, items: seq<Selection>)

  datatype ExecutableDocument = ExecutableDocument(operations: seq<Operation>, fragments: Fragments)

  // ----- entries by name -----

  /** Entry `j` is the first one of that name. */
  predicate IsFirst<T>(entries: seq<Named<T>>, name: Name, j: nat) {
    j < |entries| && entries[j].name == name && forall i :: 0 <= i < j ==> entries[i].name != name
  }

  lemma {:induction false} FirstExists<T>(entries: seq<Named<T>>, name: Name, n: nat)
    requires n < |entries| && entries[n].name == name
    ensures exists j: nat :: IsFirst(entries, name, j)
  {
    if i: nat :| i < n && entries[i].name == name {
      FirstExists(entries, name, i);
    } else {
      assert IsFirst(entries, name, n);
    }
  }

  // ----- selection sets -----

  /** The selection set directly below a selection: a nonempty field body, the body of a known
      fragment, or the body of an inline fragment. */
  function Child(frags: Fragments, s: Selection): Option<seq<Selection>> {
    match s
    case Field(_, _, _, _, items) => if items == [] then None else Some(items)
    case FragmentSpread(name, _) => if name in frags then Some(frags[name].items) else None
    case InlineFragment(_, _, items) => Some(items)
  }

  /** Walk down from a selection set, choosing one selection at each level. */
  function Follow(frags: Fragments, items: seq<Selection>, path: seq<nat>): Option<seq<Selection>>
    decreases |path|
  {
    if path == [] then Some(items)
    else if path[0] < |items| && Child(frags, items[path[0]]).Some?
      then Follow(frags, Child(frags, items[path[0]]).value, path[1..])
    else None
  }

  lemma {:induction false} FollowConcat(frags: Fragments, items: seq<Selection>, p: seq<nat>, q: seq<nat>)
    requires Follow(frags, items, p).Some?
    ensures Follow(frags, items, p + q) == Follow(frags, Follow(frags, items, p).value, q)
    decreases |p|
  {
    if p == [] {
      assert p + q == q;
    } else {
      FollowConcat(frags, Child(frags, items[p[0]]).value, p[1..], q);
      assert (p + q)[1..] == p[1..] + q;
    }
  }

  /** Selection sets nest at most `depth` deep below this one, through fields and fragments. */
  ghost predicate Bounded(frags: Fragments, items: seq<Selection>, depth: nat)
    decreases depth
  {
    forall i :: 0 <= i < |items| && Child(frags, items[i]).Some? ==>
      0 < depth && Bounded(frags, Child(frags, items[i]).value, depth - 1)
  }

  lemma {:induction false} BoundedMore(frags: Fragments, items: seq<Selection>, depth: nat, more: nat)
    requires Bounded(frags, items, depth) && depth <= more
    ensures Bounded(frags, items, more)
    decreases depth
  {
    forall i | 0 <= i < |items| && Child(frags, items[i]).Some?
      ensures 0 < more && Bounded(frags, Child(frags, items[i]).value, more - 1)
    {
      BoundedMore(frags, Child(frags, items[i]).value, depth - 1, more - 1);
    }
  }

  /** Nesting is bounded exactly when no chain of nested selection sets is longer. */
  lemma {:induction false} BoundedPath(frags: Fragments, items: seq<Selection>, depth: nat, path: seq<nat>)
    requires Bounded(frags, items, depth) && Follow(frags, items, path).Some?
    ensures |path| <= depth
    ensures Bounded(frags, Follow(frags, items, path).value, depth - |path|)
    decreases depth
  {
    if path != [] {
      BoundedPath(frags, Child(frags, items[path[0]]).value, depth - 1, path[1..]);
    }
  }

  lemma {:induction false} LongPath(frags: Fragments, items: seq<Selection>, depth: nat) returns (path: seq<nat>)
    requires !Bounded(frags, items, depth)
    ensures Follow(frags, items, path).Some? && |path| == depth + 1
    decreases depth
  {
    var i :| 0 <= i < |items| && Child(frags, items[i]).Some? &&
             !(0 < depth && Bounded(frags, Child(frags, items[i]).value, depth - 1));
    if depth == 0 {
      path := [i];
      assert path[1..] == [];
    } else {
      var rest := LongPath(frags, Child(frags, items[i]).value, depth - 1);
      path := [i] + rest;
    }
  }

  // ----- the full expansion -----

  /** Every field of the full expansion, in document order, going at most `fuel` levels down. */
  function Expand(frags: Fragments, items: seq<Selection>, fuel: nat): seq<Selection>
    decreases fuel, |items|
  {
    if items == [] then []
    else Expand(frags, items[..|items| - 1], fuel) + ExpandOne(frags, items[|items| - 1], fuel)
  }

  function ExpandOne(frags: Fragments, s: Selection, fuel: nat): seq<Selection>
    decreases fuel, 0
  {
    (if s.Field? then [s] else []) +
    match Child(frags, s)
    case Some(items) => if fuel > 0 then Expand(frags, items, fuel - 1) else []
    case None => []
  }

  lemma {:induction false} ExpandOneStable(frags: Fragments, s: Selection, depth: nat, more: nat)
    requires Child(frags, s).Some? ==> 0 < depth && Bounded(frags, Child(frags, s).value, depth - 1)
    requires depth <= more
    ensures ExpandOne(frags, s, more) == ExpandOne(frags, s, depth)
    decreases depth, 0
  {
    if Child(frags, s).Some? {
      ExpandStable(frags, Child(frags, s).value, depth - 1, more - 1);
    }
  }

  lemma BoundedParts(frags: Fragments, items: seq<Selection>, n: nat, depth: nat)
    requires Bounded(frags, items, depth) && n < |items|
    ensures Bounded(frags, items[..n], depth)
    ensures var child := Child(frags, items[n]); child.Some? ==> 0 < depth && Bounded(frags, child.value, depth - 1)
  {
    assert forall i :: 0 <= i < n ==> items[..n][i] == items[i];
  }

  /** A bounded selection set has a finite full expansion: going further down finds nothing more. */
  lemma {:induction false} ExpandStable(frags: Fragments, items: seq<Selection>, depth: nat, more: nat)
    requires Bounded(frags, items, depth) && depth <= more
    ensures Expand(frags, items, more) == Expand(frags, items, depth)
    decreases depth, 1, |items|
  {
    if items != [] {
      var n := |items| - 1;
      BoundedParts(frags, items, n, depth);
      ExpandStable(frags, items[..n], depth, more);
      ExpandOneStable(frags, items[n], depth, more);
    }
  }
}
