/** The structural limits checked before a document is validated and run. */
module DocumentChecks {
  import opened Wrappers
  import opened Document

  // ----- check_recursive_depth -----

  /** The recursive walk of the depth check.  It descends one level at a time and gives up past
      `max`, so it ends on every document, cyclic fragments included. */
  predicate DepthOk(frags: Fragments, items: seq<Selection>, current: nat, max: nat)
    decreases if current <= max then max + 1 - current else 0
  {
    current <= max &&
    forall i :: 0 <= i < |items| ==>
      match items[i]
      case Field(_, _, _, _, inner) => inner != [] ==> DepthOk(frags, inner, current + 1, max)
      case FragmentSpread(name, _) => name in frags ==> DepthOk(frags, frags[name].items, current + 1, max)
      case InlineFragment(_, _, inner) => DepthOk(frags, inner, current + 1, max)
  }

  predicate CheckRecursiveDepth(doc: ExecutableDocument, max: nat) {
    forall i :: 0 <= i < |doc.operations| ==> DepthOk(doc.fragments, doc.operations[i].items, 0, max)
  }

  lemma {:induction false} DepthOkIsBounded(frags: Fragments, items: seq<Selection>, current: nat, max: nat)
    ensures DepthOk(frags, items, current, max) <==> current <= max && Bounded(frags, items, max - current)
    decreases if current <= max then max + 1 - current else 0
  {
    if current <= max {
      forall i | 0 <= i < |items| && Child(frags, items[i]).Some?
        ensures var inner := Child(frags, items[i]).value;
                DepthOk(frags, inner, current + 1, max) <==>
                current + 1 <= max && Bounded(frags, inner, max - current - 1)
      {
        DepthOkIsBounded(frags, Child(frags, items[i]).value, current + 1, max);
      }
      assert DepthOk(frags, items, current, max) <==>
        forall i :: 0 <= i < |items| && Child(frags, items[i]).Some? ==>
          DepthOk(frags, Child(frags, items[i]).value, current + 1, max);
    }
  }

  /** The check succeeds exactly when every chain of nested selection sets, from any operation, has
      at most `max` steps. */
  lemma DepthCheckExact(doc: ExecutableDocument, max: nat)
    ensures CheckRecursiveDepth(doc, max) <==>
            forall i, path :: 0 <= i < |doc.operations| && Follow(doc.fragments, doc.operations[i].items, path).Some?
              ==> |path| <= max
  {
    forall i | 0 <= i < |doc.operations|
      ensures DepthOk(doc.fragments, doc.operations[i].items, 0, max) <==>
              forall path :: Follow(doc.fragments, doc.operations[i].items, path).Some? ==> |path| <= max
    {
      var items := doc.operations[i].items;
      DepthOkIsBounded(doc.fragments, items, 0, max);
      if Bounded(doc.fragments, items, max) {
        forall path | Follow(doc.fragments, items, path).Some? ensures |path| <= max {
          BoundedPath(doc.fragments, items, max, path);
        }
      } else {
        var path := LongPath(doc.fragments, items, max);
        assert Follow(doc.fragments, items, path).Some?;
      }
    }
  }

  function Repeat(q: seq<nat>, n: nat): seq<nat> {
    if n == 0 then [] else q + Repeat(q, n - 1)
  }

  lemma {:induction false} LoopAnyLength(frags: Fragments, items: seq<Selection>, q: seq<nat>, n: nat)
    requires Follow(frags, items, q) == Some(items) && q != []
    ensures Follow(frags, items, Repeat(q, n)) == Some(items) && n <= |Repeat(q, n)|
  {
    if n > 0 {
      LoopAnyLength(frags, items, q, n - 1);
      FollowConcat(frags, items, q, Repeat(q, n - 1));
    }
  }

  /** After the check, no selection set reachable from an operation contains itself; in particular no
      fragment reachable from an operation spreads itself, directly or through others. */
  lemma NoReachableCycle(doc: ExecutableDocument, max: nat, i: nat, p: seq<nat>, q: seq<nat>)
    requires CheckRecursiveDepth(doc, max) && i < |doc.operations| && q != []
    requires Follow(doc.fragments, doc.operations[i].items, p).Some?
    ensures var items := Follow(doc.fragments, doc.operations[i].items, p).value;
            Follow(doc.fragments, items, q) != Some(items)
  {
    var start := doc.operations[i].items;
    var items := Follow(doc.fragments, start, p).value;
    if Follow(doc.fragments, items, q) == Some(items) {
      LoopAnyLength(doc.fragments, items, q, max + 1);
      FollowConcat(doc.fragments, start, p, Repeat(q, max + 1));
      DepthCheckExact(doc, max);
      assert false;
    }
  }

  /** Somewhere below a selection set, through fields and fragments, a fragment is spread. */
  ghost predicate Spreads(frags: Fragments, items: seq<Selection>, name: Name) {
    exists p, i :: SpreadsAt(frags, items, name, p, i)
  }

  predicate SpreadsAt(frags: Fragments, items: seq<Selection>, name: Name, p: seq<nat>, i: nat) {
    && Follow(frags, items, p).Some?
    && var below := Follow(frags, items, p).value;
       i < |below| && below[i].FragmentSpread? && below[i].fragment == name
  }

  /** From a selection set that spreads a known fragment there is a path to the fragment's body. */
  lemma SpreadPath(frags: Fragments, items: seq<Selection>, name: Name) returns (q: seq<nat>)
    requires name in frags && Spreads(frags, items, name)
    ensures q != [] && Follow(frags, items, q) == Some(frags[name].items)
  {
    var p, i :| SpreadsAt(frags, items, name, p, i);
    q := p + [i];
    FollowConcat(frags, items, p, [i]);
    assert [i][1..] == [];
  }

  /** In every document, a fragment that spreads itself, directly or through others, and that some
      operation reaches, fails every depth limit. */
  lemma CyclicFragmentRejected(doc: ExecutableDocument, max: nat, i: nat, name: Name)
    requires i < |doc.operations| && name in doc.fragments
    requires Spreads(doc.fragments, doc.operations[i].items, name)
    requires Spreads(doc.fragments, doc.fragments[name].items, name)
    ensures !CheckRecursiveDepth(doc, max)
  {
    var p := SpreadPath(doc.fragments, doc.operations[i].items, name);
    var q := SpreadPath(doc.fragments, doc.fragments[name].items, name);
    if CheckRecursiveDepth(doc, max) {
      NoReachableCycle(doc, max, i, p, q);
      assert false;
    }
  }

  // ----- check_alias_count -----

  function CountAliases(fields: seq<Selection>): nat {
    if fields == [] then 0
    else CountAliases(fields[..|fields| - 1]) +
         if fields[|fields| - 1].Field? && fields[|fields| - 1].alias.Some? then 1 else 0
  }

  function Aliased(fields: seq<Selection>): set<nat> {
    set i: nat | i < |fields| && fields[i].Field? && fields[i].alias.Some?
  }

  lemma {:induction false} CountAliasesMeaning(fields: seq<Selection>)
    ensures CountAliases(fields) == |Aliased(fields)|
  {
    if fields != [] {
      var n := |fields| - 1;
      CountAliasesMeaning(fields[..n]);
      assert Aliased(fields) == Aliased(fields[..n]) + if fields[n].Field? && fields[n].alias.Some? then {n} else {};
    }
  }

  lemma {:induction false} CountAliasesConcat(a: seq<Selection>, b: seq<Selection>)
    ensures CountAliases(a + b) == CountAliases(a) + CountAliases(b)
  {
    if b == [] {
      assert a + b == a;
    } else {
      CountAliasesConcat(a, b[..|b| - 1]);
      assert (a + b)[..|a + b| - 1] == a + b[..|b| - 1];
    }
  }

  /** The number of aliases in the full expansion of a selection set. */
  function Aliases(frags: Fragments, items: seq<Selection>, depth: nat): nat {
    CountAliases(Expand(frags, items, depth))
  }

  function OwnAlias(s: Selection): nat {
    if s.Field? && s.alias.Some? then 1 else 0
  }

  function AliasesBelow(frags: Fragments, s: Selection, depth: nat): nat {
    if Child(frags, s).Some? && depth > 0 then Aliases(frags, Child(frags, s).value, depth - 1) else 0
  }

  lemma AliasesSnoc(frags: Fragments, items: seq<Selection>, i: nat, depth: nat)
    requires i < |items|
    ensures Aliases(frags, items[..i + 1], depth)
         == Aliases(frags, items[..i], depth) + OwnAlias(items[i]) + AliasesBelow(frags, items[i], depth)
  {
    var s := items[i];
    assert items[..i + 1][..i] == items[..i];
    CountAliasesConcat(Expand(frags, items[..i], depth), ExpandOne(frags, s, depth));
    var own := if s.Field? then [s] else [];
    var below := if Child(frags, s).Some? && depth > 0 then Expand(frags, Child(frags, s).value, depth - 1) else [];
    CountAliasesConcat(own, below);
    assert ExpandOne(frags, s, depth) == own + below;
    assert [s][..0] == [];
  }

  lemma {:induction false} AliasesPrefix(frags: Fragments, items: seq<Selection>, i: nat, depth: nat)
    requires i <= |items|
    ensures Aliases(frags, items[..i], depth) <= Aliases(frags, items, depth)
    decreases |items| - i
  {
    if i < |items| {
      AliasesSnoc(frags, items, i, depth);
      AliasesPrefix(frags, items, i + 1, depth);
    } else {
      assert items[..i] == items;
    }
  }

  /** The counting walk.  It does not bound its own recursion: `depth`, which is not part of the
      program, is what the depth check has established.  An empty set is always fine; otherwise the
      walk succeeds exactly when the running total stays within the limit. */
  method CountSelectionSet(frags: Fragments, items: seq<Selection>, current: nat, max: nat, ghost depth: nat)
    returns (ok: bool, current': nat)
    requires Bounded(frags, items, depth)
    ensures ok <==> items == [] || current + Aliases(frags, items, depth) <= max
    ensures ok ==> current' == current + Aliases(frags, items, depth)
    decreases depth, 1
  {
    current' := current;
    for i := 0 to |items|
      invariant current' == current + Aliases(frags, items[..i], depth)
      invariant i > 0 ==> current' <= max
    {
      AliasesSnoc(frags, items, i, depth);
      AliasesPrefix(frags, items, i + 1, depth);
      ok, current' := CountSelection(frags, items[i], current', max, depth);
      if !ok || current' > max {
        return false, current';
      }
    }
    assert items[..|items|] == items;
    ok := true;
  }

  /** The body of the loop: one selection and what is below it. */
  method CountSelection(frags: Fragments, s: Selection, current: nat, max: nat, ghost depth: nat)
    returns (ok: bool, current': nat)
    requires Child(frags, s).Some? ==> 0 < depth && Bounded(frags, Child(frags, s).value, depth - 1)
    ensures ok ==> current' == current + OwnAlias(s) + AliasesBelow(frags, s, depth)
    ensures !ok ==> current + OwnAlias(s) + AliasesBelow(frags, s, depth) > max
    decreases depth, 0
  {
    ok, current' := true, current;
    match s {
      case Field(alias, _, _, _, inner) =>
        if alias.Some? {
          current' := current' + 1;
        }
        if inner != [] {
          ok, current' := CountSelectionSet(frags, inner, current', max, depth - 1);
        }
      case FragmentSpread(name, _) =>
        if name in frags {
          ok, current' := CountSelectionSet(frags, frags[name].items, current', max, depth - 1);
        }
      case InlineFragment(_, _, inner) =>
        ok, current' := CountSelectionSet(frags, inner, current', max, depth - 1);
    }
  }

  /** The total number of aliases in the full expansion of the first `n` operations. */
  ghost function TotalAliases(doc: ExecutableDocument, n: nat, depth: nat): nat
    requires n <= |doc.operations|
  {
    if n == 0 then 0
    else TotalAliases(doc, n - 1, depth) + Aliases(doc.fragments, doc.operations[n - 1].items, depth)
  }

  /** The aliased fields of the full expansions, each with the operation it belongs to. */
  ghost function AliasedIn(doc: ExecutableDocument, n: nat, depth: nat): set<(nat, nat)>
    requires n <= |doc.operations|
  {
    set i: nat, j: nat | i < n && j in Aliased(Expand(doc.fragments, doc.operations[i].items, depth)) :: (i, j)
  }

  lemma {:induction false} TotalAliasesMeaning(doc: ExecutableDocument, n: nat, depth: nat)
    requires n <= |doc.operations|
    ensures TotalAliases(doc, n, depth) == |AliasedIn(doc, n, depth)|
  {
    if n > 0 {
      TotalAliasesMeaning(doc, n - 1, depth);
      OneMoreOperation(doc, n, depth);
    }
  }

  lemma OneMoreOperation(doc: ExecutableDocument, n: nat, depth: nat)
    requires 0 < n <= |doc.operations|
    ensures |AliasedIn(doc, n, depth)|
         == |AliasedIn(doc, n - 1, depth)| + Aliases(doc.fragments, doc.operations[n - 1].items, depth)
  {
    var last := Expand(doc.fragments, doc.operations[n - 1].items, depth);
    CountAliasesMeaning(last);
    PairsCount(n - 1, Aliased(last));
    CountTogether(AliasedIn(doc, n - 1, depth), Pairs(n - 1, Aliased(last)), AliasedIn(doc, n, depth));
  }

  lemma CountTogether<T>(a: set<T>, b: set<T>, c: set<T>)
    requires a !! b && c == a + b
    ensures |c| == |a| + |b|
  {}

  ghost function Pairs(i: nat, js: set<nat>): set<(nat, nat)> {
    set j | j in js :: (i, j)
  }

  lemma {:induction false} PairsCount(i: nat, js: set<nat>)
    ensures |Pairs(i, js)| == |js|
  {
    if js != {} {
      var j :| j in js;
      PairsCount(i, js - {j});
      assert Pairs(i, js) == Pairs(i, js - {j}) + {(i, j)};
    }
  }

  lemma {:induction false} TotalAliasesGrow(doc: ExecutableDocument, n: nat, m: nat, depth: nat)
    requires n <= m <= |doc.operations|
    ensures TotalAliases(doc, n, depth) <= TotalAliases(doc, m, depth)
  {
    if n < m {
      TotalAliasesGrow(doc, n, m - 1, depth);
    }
  }

  /** On a document that passed the depth check, the alias check ends, and succeeds exactly when the
      aliases of the full expansion of all operations together stay within the limit. */
  method CheckAliasCount(doc: ExecutableDocument, max: nat, ghost depth: nat) returns (ok: bool)
    requires CheckRecursiveDepth(doc, depth)
    ensures ok <==> TotalAliases(doc, |doc.operations|, depth) <= max
  {
    var current := 0;
    for i := 0 to |doc.operations|
      invariant current == TotalAliases(doc, i, depth) <= max
    {
      var items := doc.operations[i].items;
      DepthOkIsBounded(doc.fragments, items, 0, depth);
      TotalAliasesGrow(doc, i + 1, |doc.operations|, depth);
      ok, current := CountSelectionSet(doc.fragments, items, current, max, depth);
      if !ok {
        return;
      }
    }
    ok := true;
  }

  // ----- check_max_directives -----

  predicate DirectivesOk(frags: Fragments, items: seq<Selection>, limit: nat, ghost depth: nat)
    requires Bounded(frags, items, depth)
    decreases depth, 1
  {
    forall i :: 0 <= i < |items| ==> SelectionDirectivesOk(frags, items[i], limit, depth)
  }

  predicate SelectionDirectivesOk(frags: Fragments, s: Selection, limit: nat, ghost depth: nat)
    requires Child(frags, s).Some? ==> 0 < depth && Bounded(frags, Child(frags, s).value, depth - 1)
    decreases depth, 0
  {
    match s
    case Field(_, _, _, directives, inner) =>
      |directives| <= limit && (inner != [] ==> DirectivesOk(frags, inner, limit, depth - 1))
    case FragmentSpread(name, _) => name in frags ==> DirectivesOk(frags, frags[name].items, limit, depth - 1)
    case InlineFragment(_, _, inner) => DirectivesOk(frags, inner, limit, depth - 1)
  }

  ghost predicate FieldsWithin(fields: seq<Selection>, limit: nat) {
    forall s :: s in fields ==> |s.directives| <= limit
  }

  lemma FieldsWithinConcat(a: seq<Selection>, b: seq<Selection>, limit: nat)
    ensures FieldsWithin(a + b, limit) <==> FieldsWithin(a, limit) && FieldsWithin(b, limit)
  {
    assert forall x :: x in a + b <==> x in a || x in b;
  }

  lemma DirectivesSnoc(frags: Fragments, items: seq<Selection>, limit: nat, depth: nat)
    requires Bounded(frags, items, depth) && items != []
    ensures Bounded(frags, items[..|items| - 1], depth)
    ensures DirectivesOk(frags, items, limit, depth) <==>
            && DirectivesOk(frags, items[..|items| - 1], limit, depth)
            && SelectionDirectivesOk(frags, items[|items| - 1], limit, depth)
  {
    var n := |items| - 1;
    if DirectivesOk(frags, items[..n], limit, depth) && SelectionDirectivesOk(frags, items[n], limit, depth) {
      forall i | 0 <= i < |items| ensures SelectionDirectivesOk(frags, items[i], limit, depth) {
        assert i < n ==> items[..n][i] == items[i];
      }
    }
  }

  lemma {:induction false} SelectionDirectivesExact(frags: Fragments, s: Selection, limit: nat, depth: nat)
    requires Child(frags, s).Some? ==> 0 < depth && Bounded(frags, Child(frags, s).value, depth - 1)
    ensures SelectionDirectivesOk(frags, s, limit, depth) <==> FieldsWithin(ExpandOne(frags, s, depth), limit)
    decreases depth, 0
  {
    var own := if s.Field? then [s] else [];
    var below := [];
    if Child(frags, s).Some? {
      below := Expand(frags, Child(frags, s).value, depth - 1);
      DirectivesExact(frags, Child(frags, s).value, limit, depth - 1);
    }
    assert ExpandOne(frags, s, depth) == own + below;
    FieldsWithinConcat(own, below, limit);
    assert FieldsWithin(own, limit) <==> (s.Field? ==> |s.directives| <= limit) by {
      assert s.Field? ==> s in own;
    }
  }

  /** The directive walk succeeds exactly when every field of the full expansion is within the limit. */
  lemma {:induction false} DirectivesExact(frags: Fragments, items: seq<Selection>, limit: nat, depth: nat)
    requires Bounded(frags, items, depth)
    ensures DirectivesOk(frags, items, limit, depth) <==> FieldsWithin(Expand(frags, items, depth), limit)
    decreases depth, 1, |items|
  {
    if items != [] {
      var n := |items| - 1;
      DirectivesExact(frags, items[..n], limit, depth);
      SelectionDirectivesExact(frags, items[n], limit, depth);
      FieldsWithinConcat(Expand(frags, items[..n], depth), ExpandOne(frags, items[n], depth), limit);
      DirectivesSnoc(frags, items, limit, depth);
    }
  }

  predicate CheckMaxDirectives(doc: ExecutableDocument, limit: nat, ghost depth: nat)
    requires CheckRecursiveDepth(doc, depth)
  {
    forall i :: 0 <= i < |doc.operations| ==>
      (DepthOkIsBounded(doc.fragments, doc.operations[i].items, 0, depth);
       DirectivesOk(doc.fragments, doc.operations[i].items, limit, depth))
  }

  lemma MaxDirectivesExact(doc: ExecutableDocument, limit: nat, depth: nat)
    requires CheckRecursiveDepth(doc, depth)
    ensures CheckMaxDirectives(doc, limit, depth) <==>
            forall i :: 0 <= i < |doc.operations| ==>
              FieldsWithin(Expand(doc.fragments, doc.operations[i].items, depth), limit)
  {
    forall i | 0 <= i < |doc.operations|
      ensures Bounded(doc.fragments, doc.operations[i].items, depth)
      ensures DirectivesOk(doc.fragments, doc.operations[i].items, limit, depth) <==>
              FieldsWithin(Expand(doc.fragments, doc.operations[i].items, depth), limit)
    {
      DepthOkIsBounded(doc.fragments, doc.operations[i].items, 0, depth);
      DirectivesExact(doc.fragments, doc.operations[i].items, limit, depth);
    }
  }
}
