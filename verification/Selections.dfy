/** Looking at the selections of the current query: the flattening iterator, the item tree, look-ahead,
    and the field collection of the dynamic resolver.

    All of them walk through fragments without bounding their own recursion.  `depth` is not part of
    the program: it is the nesting bound that the depth check has established. */
module Selections {
  import opened Wrappers
  import opened Gathering
  import opened Document
  import opened DocumentChecks
  import opened Walks
  import opened InputValues
  import opened SkipInclude

  // ----- the fields at one level -----

  /** The selection set a fragment selection stands for; a field stands for itself. */
  function Inner(frags: Fragments, s: Selection): Option<seq<Selection>> {
    if s.Field? then None else Child(frags, s)
  }

  /** The fields of a selection set in document order, with fragments replaced by their bodies.  A
      spread of an unknown fragment stands for nothing. */
  function Flatten(frags: Fragments, items: seq<Selection>, ghost depth: nat): seq<Selection>
    requires Bounded(frags, items, depth)
    decreases depth, 1, |items|
  {
    if items == [] then []
    else
      var rest := items[1..];
      assert forall i :: 0 <= i < |rest| ==> rest[i] == items[i + 1];
      FlattenOne(frags, items[0], depth) + Flatten(frags, rest, depth)
  }

  function FlattenOne(frags: Fragments, s: Selection, ghost depth: nat): seq<Selection>
    requires BelowBounded(frags, s, depth)
    decreases depth, 0
  {
    match Inner(frags, s)
    case None => if s.Field? then [s] else []
    case Some(inner) => Flatten(frags, inner, depth - 1)
  }

  lemma {:induction false} FlattenStable(frags: Fragments, items: seq<Selection>, depth: nat, more: nat)
    requires Bounded(frags, items, depth) && depth <= more
    ensures Bounded(frags, items, more) && Flatten(frags, items, more) == Flatten(frags, items, depth)
    decreases depth, |items|
  {
    BoundedMore(frags, items, depth, more);
    if items != [] {
      assert forall i :: 0 <= i < |items[1..]| ==> items[1..][i] == items[i + 1];
      FlattenStable(frags, items[1..], depth, more);
      if Inner(frags, items[0]).Some? {
        FlattenStable(frags, Inner(frags, items[0]).value, depth - 1, more - 1);
      }
    }
  }

  lemma BoundedSlice(frags: Fragments, items: seq<Selection>, i: nat, j: nat, depth: nat)
    requires Bounded(frags, items, depth) && i <= j <= |items|
    ensures Bounded(frags, items[i..j], depth)
  {
    assert forall k :: 0 <= k < j - i ==> items[i..j][k] == items[i + k];
  }

  lemma BoundedSnoc(frags: Fragments, items: seq<Selection>, s: Selection, depth: nat)
    requires Bounded(frags, items, depth) && BelowBounded(frags, s, depth)
    ensures Bounded(frags, items + [s], depth)
  {}

  lemma {:induction false} FlattenSnoc(frags: Fragments, items: seq<Selection>, s: Selection, depth: nat)
    requires Bounded(frags, items, depth) && BelowBounded(frags, s, depth)
    ensures Bounded(frags, items + [s], depth)
    ensures Flatten(frags, items + [s], depth) == Flatten(frags, items, depth) + FlattenOne(frags, s, depth)
    decreases |items|
  {
    BoundedSnoc(frags, items, s, depth);
    if items == [] {
      assert [s][1..] == [] && items + [s] == [s];
      assert FlattenOne(frags, s, depth) + [] == FlattenOne(frags, s, depth);
    } else {
      BoundedSlice(frags, items, 1, |items|, depth);
      assert items[1..] == items[1..|items|];
      FlattenSnoc(frags, items[1..], s, depth);
      assert (items + [s])[1..] == items[1..] + [s];
      assert (items + [s])[0] == items[0];
    }
  }

  lemma FlattenNext(frags: Fragments, items: seq<Selection>, i: nat, depth: nat)
    requires Bounded(frags, items, depth) && i < |items|
    ensures Bounded(frags, items[..i], depth) && Bounded(frags, items[..i + 1], depth)
    ensures BelowBounded(frags, items[i], depth)
    ensures Flatten(frags, items[..i + 1], depth)
         == Flatten(frags, items[..i], depth) + FlattenOne(frags, items[i], depth)
  {
    BoundedSlice(frags, items, 0, i, depth);
    assert items[0..i] == items[..i] && items[..i + 1] == items[..i] + [items[i]];
    FlattenSnoc(frags, items[..i], items[i], depth);
  }

  function IsFragment(): Selection -> bool {
    (s: Selection) => !s.Field?
  }

  /** Flattening is the walk that enters fragments and keeps fields. */
  lemma {:induction false} FlattenIsWalk(frags: Fragments, items: seq<Selection>, depth: nat)
    requires Bounded(frags, items, depth)
    ensures Flatten(frags, items, depth) == Walk(frags, items, IsFragment(), IsField(), depth)
    decreases depth, 1, |items|
  {
    if items != [] {
      var n := |items| - 1;
      BoundedParts(frags, items, n, depth);
      FlattenNext(frags, items, n, depth);
      assert items[..n + 1] == items;
      FlattenIsWalk(frags, items[..n], depth);
      FlattenOneIsWalk(frags, items[n], depth);
    }
  }

  lemma {:induction false} FlattenOneIsWalk(frags: Fragments, s: Selection, depth: nat)
    requires BelowBounded(frags, s, depth)
    ensures FlattenOne(frags, s, depth) == WalkOne(frags, s, IsFragment(), IsField(), depth)
    decreases depth, 0
  {
    if Inner(frags, s).Some? {
      FlattenIsWalk(frags, Inner(frags, s).value, depth - 1);
    }
    JoinedWith(frags, s, IsFragment(), IsField(), depth);
  }

  // ----- SelectionFieldsIter -----

  /** The work left in a selection set: its selections, and below each fragment one more frame. */
  ghost function Work(frags: Fragments, items: seq<Selection>, depth: nat): nat
    requires Bounded(frags, items, depth)
    decreases depth, 1, |items|
  {
    if items == [] then 0
    else
      assert forall i :: 0 <= i < |items[1..]| ==> items[1..][i] == items[i + 1];
      1 + WorkBelow(frags, items[0], depth) + Work(frags, items[1..], depth)
  }

  ghost function WorkBelow(frags: Fragments, s: Selection, depth: nat): nat
    requires BelowBounded(frags, s, depth)
    decreases depth, 0
  {
    match Inner(frags, s)
    case None => 0
    case Some(inner) => 1 + Work(frags, inner, depth - 1)
  }

  lemma {:induction false} WorkStable(frags: Fragments, items: seq<Selection>, depth: nat, more: nat)
    requires Bounded(frags, items, depth) && depth <= more
    ensures Bounded(frags, items, more) && Work(frags, items, more) == Work(frags, items, depth)
    decreases depth, |items|
  {
    BoundedMore(frags, items, depth, more);
    if items != [] {
      assert forall i :: 0 <= i < |items[1..]| ==> items[1..][i] == items[i + 1];
      WorkStable(frags, items[1..], depth, more);
      if Inner(frags, items[0]).Some? {
        WorkStable(frags, Inner(frags, items[0]).value, depth - 1, more - 1);
      }
    }
  }

  ghost predicate AllBounded(frags: Fragments, stack: seq<seq<Selection>>, depth: nat) {
    forall i :: 0 <= i < |stack| ==> Bounded(frags, stack[i], depth)
  }

  /** What a stack of slice iterators has still to yield, innermost frame first. */
  ghost function Remaining(frags: Fragments, stack: seq<seq<Selection>>, depth: nat): seq<Selection>
    requires AllBounded(frags, stack, depth)
  {
    if stack == [] then []
    else Flatten(frags, stack[|stack| - 1], depth) + Remaining(frags, stack[..|stack| - 1], depth)
  }

  ghost function StackWork(frags: Fragments, stack: seq<seq<Selection>>, depth: nat): nat
    requires AllBounded(frags, stack, depth)
  {
    if stack == [] then 0
    else 1 + Work(frags, stack[|stack| - 1], depth) + StackWork(frags, stack[..|stack| - 1], depth)
  }

  lemma StackSnoc(frags: Fragments, below: seq<seq<Selection>>, top: seq<Selection>, depth: nat)
    requires AllBounded(frags, below, depth) && Bounded(frags, top, depth)
    ensures AllBounded(frags, below + [top], depth)
    ensures Remaining(frags, below + [top], depth) == Flatten(frags, top, depth) + Remaining(frags, below, depth)
    ensures StackWork(frags, below + [top], depth) == 1 + Work(frags, top, depth) + StackWork(frags, below, depth)
  {
    assert (below + [top])[..|below|] == below;
  }

  /** Popping an exhausted iterator. */
  lemma PopStack(frags: Fragments, stack: seq<seq<Selection>>, depth: nat)
    requires AllBounded(frags, stack, depth) && stack != [] && stack[|stack| - 1] == []
    ensures AllBounded(frags, stack[..|stack| - 1], depth)
    ensures Remaining(frags, stack[..|stack| - 1], depth) == Remaining(frags, stack, depth)
    ensures StackWork(frags, stack[..|stack| - 1], depth) < StackWork(frags, stack, depth)
  {}

  /** Advancing the innermost iterator past a field, or past a fragment that is unknown. */
  lemma AdvanceStack(frags: Fragments, stack: seq<seq<Selection>>, depth: nat)
    requires AllBounded(frags, stack, depth) && stack != [] && stack[|stack| - 1] != []
    ensures var top, below := stack[|stack| - 1], stack[..|stack| - 1];
            var advanced := below + [top[1..]];
            && AllBounded(frags, advanced, depth) && BelowBounded(frags, top[0], depth)
            && StackWork(frags, advanced, depth) + WorkBelow(frags, top[0], depth) < StackWork(frags, stack, depth)
            && Remaining(frags, stack, depth) == FlattenOne(frags, top[0], depth) + Remaining(frags, advanced, depth)
  {
    var top, below := stack[|stack| - 1], stack[..|stack| - 1];
    BoundedSlice(frags, top, 1, |top|, depth);
    assert top[1..] == top[1..|top|];
    StackSnoc(frags, below, top[1..], depth);
    assert stack == below + [top];
    StackSnoc(frags, below, top, depth);
  }

  /** Advancing past a field yields it; advancing past an unknown fragment yields nothing. */
  lemma PassStack(frags: Fragments, stack: seq<seq<Selection>>, depth: nat)
    requires AllBounded(frags, stack, depth) && stack != [] && stack[|stack| - 1] != []
    requires Inner(frags, stack[|stack| - 1][0]).None?
    ensures var top, below := stack[|stack| - 1], stack[..|stack| - 1];
            var advanced := below + [top[1..]];
            && AllBounded(frags, advanced, depth)
            && StackWork(frags, advanced, depth) < StackWork(frags, stack, depth)
            && Remaining(frags, stack, depth)
            == (if top[0].Field? then [top[0]] else []) + Remaining(frags, advanced, depth)
  {
    AdvanceStack(frags, stack, depth);
  }

  /** Advancing past a fragment and pushing its body leaves what is to come unchanged, and is
      progress. */
  lemma DescendStack(frags: Fragments, stack: seq<seq<Selection>>, depth: nat)
    requires AllBounded(frags, stack, depth) && stack != [] && stack[|stack| - 1] != []
    requires Inner(frags, stack[|stack| - 1][0]).Some?
    ensures var top, below := stack[|stack| - 1], stack[..|stack| - 1];
            var descended := below + [top[1..]] + [Inner(frags, top[0]).value];
            && AllBounded(frags, descended, depth)
            && StackWork(frags, descended, depth) < StackWork(frags, stack, depth)
            && Remaining(frags, descended, depth) == Remaining(frags, stack, depth)
  {
    AdvanceStack(frags, stack, depth);
    var top, below := stack[|stack| - 1], stack[..|stack| - 1];
    var inner := Inner(frags, top[0]).value;
    FlattenStable(frags, inner, depth - 1, depth);
    WorkStable(frags, inner, depth - 1, depth);
    StackSnoc(frags, below + [top[1..]], inner, depth);
  }

  /** The stack after one turn of the loop below, and the field this turn yields. */
  function NextStack(frags: Fragments, stack: seq<seq<Selection>>): seq<seq<Selection>>
    requires stack != []
  {
    var top, below := stack[|stack| - 1], stack[..|stack| - 1];
    if top == [] then below
    else if Inner(frags, top[0]).Some? then below + [top[1..]] + [Inner(frags, top[0]).value]
    else below + [top[1..]]
  }

  function Yielded(stack: seq<seq<Selection>>): seq<Selection>
    requires stack != []
  {
    var top := stack[|stack| - 1];
    if top != [] && top[0].Field? then [top[0]] else []
  }

  /** Every turn is progress, and loses nothing of what is to come. */
  lemma StepStack(frags: Fragments, stack: seq<seq<Selection>>, depth: nat)
    requires AllBounded(frags, stack, depth) && stack != []
    ensures var next := NextStack(frags, stack);
            && AllBounded(frags, next, depth)
            && StackWork(frags, next, depth) < StackWork(frags, stack, depth)
            && Remaining(frags, stack, depth) == Yielded(stack) + Remaining(frags, next, depth)
  {
    var top := stack[|stack| - 1];
    if top == [] {
      PopStack(frags, stack, depth);
    } else if Inner(frags, top[0]).Some? {
      DescendStack(frags, stack, depth);
    } else {
      PassStack(frags, stack, depth);
    }
  }

  class SelectionFieldsIter {
    const fragments: Fragments
    var iter: seq<seq<Selection>>
    ghost const depth: nat

    ghost predicate Valid()
      reads this
    {
      AllBounded(fragments, iter, depth)
    }

    ghost function ToCome(): seq<Selection>
      requires Valid()
      reads this
    {
      Remaining(fragments, iter, depth)
    }

    constructor (frags: Fragments, items: seq<Selection>, ghost bound: nat)
      requires Bounded(frags, items, bound)
      ensures Valid() && ToCome() == Flatten(frags, items, bound) && fragments == frags
    {
      fragments, iter, depth := frags, [items], bound;
      new;
      StackSnoc(frags, [], items, bound);
      assert [] + [items] == [items];
      assert Flatten(frags, items, bound) + [] == Flatten(frags, items, bound);
    }

    /** Yields the next field of the walk, and nothing exactly when the walk is over. */
    method Next() returns (field: Option<Selection>)
      requires Valid()
      modifies this
      ensures Valid()
      ensures field.None? ==> old(ToCome()) == [] && ToCome() == [] && iter == []
      ensures field.Some? ==> old(ToCome()) == [field.value] + ToCome() && field.value.Field?
    {
      while iter != []
        invariant Valid() && ToCome() == old(ToCome())
        decreases StackWork(fragments, iter, depth)
      {
        StepStack(fragments, iter, depth);
        ghost var next := NextStack(fragments, iter);
        var it := iter[|iter| - 1];
        if it == [] {
          iter := iter[..|iter| - 1];
        } else {
          iter := iter[..|iter| - 1] + [it[1..]];
          match it[0] {
            case Field(_, _, _, _, _) =>
              return Some(it[0]);
            case FragmentSpread(name, _) =>
              if name in fragments {
                iter := iter + [fragments[name].items];
              }
            case InlineFragment(_, _, items) =>
              iter := iter + [items];
          }
        }
        assert iter == next;
      }
      field := None;
    }
  }

  /** Draining the iterator ends, and yields exactly the fields of the recursive walk, in order. */
  method Drain(frags: Fragments, items: seq<Selection>, ghost depth: nat) returns (fields: seq<Selection>)
    requires Bounded(frags, items, depth)
    ensures fields == Flatten(frags, items, depth)
  {
    var it := new SelectionFieldsIter(frags, items, depth);
    fields := [];
    var next := it.Next();
    while next.Some?
      invariant fresh(it) && it.Valid() && it.fragments == frags
      invariant Flatten(frags, items, depth) == fields + (if next.Some? then [next.value] else []) + it.ToCome()
      invariant next.None? ==> it.ToCome() == []
      decreases |it.ToCome()|, if next.Some? then 1 else 0
    {
      fields := fields + [next.value];
      next := it.Next();
    }
  }

  // ----- the item tree -----

  datatype SelectionItem =
    | FieldItem(field: Selection)
    | SpreadItem(name: Name, items: seq<SelectionItem>)
    | InlineItem(condition: Option<Name>, items: seq<SelectionItem>)

  function Items(frags: Fragments, items: seq<Selection>, ghost depth: nat): seq<SelectionItem>
    requires Bounded(frags, items, depth)
    decreases depth, 1, |items|
  {
    if items == [] then []
    else
      var front := items[..|items| - 1];
      assert forall i :: 0 <= i < |front| ==> front[i] == items[i];
      Items(frags, front, depth) + ItemsOne(frags, items[|items| - 1], depth)
  }

  function ItemsOne(frags: Fragments, s: Selection, ghost depth: nat): seq<SelectionItem>
    requires BelowBounded(frags, s, depth)
    decreases depth, 0
  {
    match s
    case Field(_, _, _, _, _) => [FieldItem(s)]
    case FragmentSpread(name, _) =>
      if name in frags then [SpreadItem(name, Items(frags, frags[name].items, depth - 1))] else []
    case InlineFragment(condition, _, inner) => [InlineItem(condition, Items(frags, inner, depth - 1))]
  }

  /** The fields in a tree of items, in order. */
  function Fields(items: seq<SelectionItem>): seq<Selection>
    decreases items
  {
    if items == [] then [] else Fields(items[..|items| - 1]) + FieldsOf(items[|items| - 1])
  }

  function FieldsOf(item: SelectionItem): seq<Selection>
    decreases item
  {
    match item
    case FieldItem(field) => [field]
    case SpreadItem(_, inner) => Fields(inner)
    case InlineItem(_, inner) => Fields(inner)
  }

  lemma {:induction false} FieldsConcat(a: seq<SelectionItem>, b: seq<SelectionItem>)
    ensures Fields(a + b) == Fields(a) + Fields(b)
  {
    if b == [] {
      assert a + b == a;
    } else {
      var n := |b| - 1;
      FieldsConcat(a, b[..n]);
      assert (a + b)[..|a + b| - 1] == a + b[..n];
      assert (a + b)[|a + b| - 1] == b[n];
    }
  }

  lemma {:induction false} ItemsOneFlattened(frags: Fragments, s: Selection, depth: nat)
    requires BelowBounded(frags, s, depth)
    ensures Fields(ItemsOne(frags, s, depth)) == FlattenOne(frags, s, depth)
    decreases depth, 0
  {
    if Inner(frags, s).Some? {
      ItemsFlattened(frags, Inner(frags, s).value, depth - 1);
    }
    if ItemsOne(frags, s, depth) != [] {
      assert ItemsOne(frags, s, depth)[..0] == [];
    }
  }

  /** The tree keeps the fragment boundaries and loses nothing: its fields, in order, are what the
      flattening iterator yields. */
  lemma {:induction false} ItemsFlattened(frags: Fragments, items: seq<Selection>, depth: nat)
    requires Bounded(frags, items, depth)
    ensures Fields(Items(frags, items, depth)) == Flatten(frags, items, depth)
    decreases depth, 1, |items|
  {
    if items != [] {
      var n := |items| - 1;
      FlattenNext(frags, items, n, depth);
      assert items[..n + 1] == items;
      ItemsFlattened(frags, items[..n], depth);
      ItemsOneFlattened(frags, items[n], depth);
      FieldsConcat(Items(frags, items[..n], depth), ItemsOne(frags, items[n], depth));
    }
  }

  /** A tree of items: one for each selection in order, except for spreads of unknown fragments, and below
      each fragment the tree of its body. */
  ghost predicate TreeOf(frags: Fragments, items: seq<Selection>, tree: seq<SelectionItem>, depth: nat)
    decreases depth, 1
  {
    exists from: seq<nat> :: TreeFrom(frags, items, tree, from, depth)
  }

  ghost predicate TreeFrom(frags: Fragments, items: seq<Selection>, tree: seq<SelectionItem>, from: seq<nat>,
                           depth: nat)
    decreases depth, 0, 1
  {
    && |from| == |tree| && Ascending(from, |items|)
    && (forall k :: 0 <= k < |from| ==> ItemOf(frags, items[from[k]], tree[k], depth))
    && (forall i :: 0 <= i < |items| && i !in from ==> items[i].FragmentSpread? && items[i].fragment !in frags)
  }

  ghost predicate ItemOf(frags: Fragments, s: Selection, item: SelectionItem, depth: nat)
    decreases depth, 0, 0
  {
    match s
    case Field(_, _, _, _, _) => item == FieldItem(s)
    case FragmentSpread(name, _) =>
      && item.SpreadItem? && item.name == name && name in frags
      && 0 < depth && TreeOf(frags, frags[name].items, item.items, depth - 1)
    case InlineFragment(condition, _, inner) =>
      && item.InlineItem? && item.condition == condition
      && 0 < depth && TreeOf(frags, inner, item.items, depth - 1)
  }

  lemma {:induction false} ItemsAreTree(frags: Fragments, items: seq<Selection>, depth: nat)
    requires Bounded(frags, items, depth)
    ensures TreeOf(frags, items, Items(frags, items, depth), depth)
    decreases depth, 1, |items|
  {
    if items == [] {
      assert TreeFrom(frags, items, Items(frags, items, depth), [], depth);
    } else {
      var n := |items| - 1;
      BoundedParts(frags, items, n, depth);
      ItemsAreTree(frags, items[..n], depth);
      var from :| TreeFrom(frags, items[..n], Items(frags, items[..n], depth), from, depth);
      ItemIsTree(frags, items[n], depth);
      TreeSnoc(frags, items, Items(frags, items[..n], depth), from, ItemsOne(frags, items[n], depth), depth);
    }
  }

  lemma {:induction false} ItemIsTree(frags: Fragments, s: Selection, depth: nat)
    requires BelowBounded(frags, s, depth)
    ensures var item := ItemsOne(frags, s, depth);
            if s.FragmentSpread? && s.fragment !in frags then item == []
            else |item| == 1 && ItemOf(frags, s, item[0], depth)
    decreases depth, 0
  {
    if Inner(frags, s).Some? {
      ItemsAreTree(frags, Inner(frags, s).value, depth - 1);
    }
  }

  lemma TreeSnoc(frags: Fragments, items: seq<Selection>, tree: seq<SelectionItem>, from: seq<nat>,
                 last: seq<SelectionItem>, depth: nat)
    requires items != [] && TreeFrom(frags, items[..|items| - 1], tree, from, depth)
    requires var s := items[|items| - 1];
             if s.FragmentSpread? && s.fragment !in frags then last == []
             else |last| == 1 && ItemOf(frags, s, last[0], depth)
    ensures TreeOf(frags, items, tree + last, depth)
  {
    var n := |items| - 1;
    assert forall i :: 0 <= i < n ==> items[..n][i] == items[i];
    if last == [] {
      assert tree + last == tree;
      assert TreeFrom(frags, items, tree + last, from, depth);
    } else {
      var all := from + [n];
      assert all[|from|] == n && forall i :: i !in all ==> i !in from;
      assert TreeFrom(frags, items, tree + last, all, depth);
    }
  }

  lemma ItemsNext(frags: Fragments, items: seq<Selection>, i: nat, depth: nat)
    requires Bounded(frags, items, depth) && i < |items|
    ensures Bounded(frags, items[..i], depth) && Bounded(frags, items[..i + 1], depth)
    ensures BelowBounded(frags, items[i], depth)
    ensures Items(frags, items[..i + 1], depth) == Items(frags, items[..i], depth) + ItemsOne(frags, items[i], depth)
  {
    BoundedSlice(frags, items, 0, i, depth);
    BoundedSlice(frags, items, 0, i + 1, depth);
    assert items[0..i] == items[..i] && items[0..i + 1] == items[..i + 1] && items[..i + 1][..i] == items[..i];
  }

  method CollectSelectionItems(frags: Fragments, items: seq<Selection>, ghost depth: nat)
    returns (result: seq<SelectionItem>)
    requires Bounded(frags, items, depth)
    ensures result == Items(frags, items, depth)
    decreases depth, 1
  {
    result := [];
    for i := 0 to |items|
      invariant Bounded(frags, items[..i], depth)
      invariant result == Items(frags, items[..i], depth)
    {
      ItemsNext(frags, items, i, depth);
      var more := CollectSelectionItem(frags, items[i], depth);
      result := result + more;
    }
    assert items[..|items|] == items;
  }

  /** The body of its loop. */
  method CollectSelectionItem(frags: Fragments, s: Selection, ghost depth: nat) returns (result: seq<SelectionItem>)
    requires BelowBounded(frags, s, depth)
    ensures result == ItemsOne(frags, s, depth)
    decreases depth, 0
  {
    result := [];
    match s {
      case Field(_, _, _, _, _) => result := [FieldItem(s)];
      case FragmentSpread(name, _) =>
        if name in frags {
          var inner := CollectSelectionItems(frags, frags[name].items, depth - 1);
          result := [SpreadItem(name, inner)];
        }
      case InlineFragment(condition, _, body) =>
        var inner := CollectSelectionItems(frags, body, depth - 1);
        result := [InlineItem(condition, inner)];
    }
  }

  // ----- look-ahead -----

  function OnlyNamed(fields: seq<Selection>, name: Name): seq<Selection> {
    if fields == [] then []
    else
      OnlyNamed(fields[..|fields| - 1], name) +
      if fields[|fields| - 1].Field? && fields[|fields| - 1].name == name then [fields[|fields| - 1]] else []
  }

  lemma {:induction false} OnlyNamedConcat(a: seq<Selection>, b: seq<Selection>, name: Name)
    ensures OnlyNamed(a + b, name) == OnlyNamed(a, name) + OnlyNamed(b, name)
  {
    if b == [] {
      assert a + b == a;
    } else {
      OnlyNamedConcat(a, b[..|b| - 1], name);
      assert (a + b)[..|a + b| - 1] == a + b[..|b| - 1];
    }
  }

  /** The `filter` walk appends the fields of that name, in order, that the iterator would yield. */
  method Filter(fields: seq<Selection>, frags: Fragments, items: seq<Selection>, name: Name, ghost depth: nat)
    returns (fields': seq<Selection>)
    requires Bounded(frags, items, depth)
    ensures fields' == fields + OnlyNamed(Flatten(frags, items, depth), name)
    decreases depth, 1
  {
    fields' := fields;
    for i := 0 to |items|
      invariant Bounded(frags, items[..i], depth)
      invariant fields' == fields + OnlyNamed(Flatten(frags, items[..i], depth), name)
    {
      FlattenNext(frags, items, i, depth);
      OnlyNamedConcat(Flatten(frags, items[..i], depth), FlattenOne(frags, items[i], depth), name);
      fields' := FilterOne(fields', frags, items[i], name, depth);
    }
    assert items[..|items|] == items;
  }

  /** The body of its loop. */
  method FilterOne(fields: seq<Selection>, frags: Fragments, s: Selection, name: Name, ghost depth: nat)
    returns (fields': seq<Selection>)
    requires BelowBounded(frags, s, depth)
    ensures fields' == fields + OnlyNamed(FlattenOne(frags, s, depth), name)
    decreases depth, 0
  {
    fields' := fields;
    match s {
      case Field(_, own, _, _, _) =>
        OnlyNamedOne(s, name);
        if own == name {
          fields' := fields' + [s];
        }
      case InlineFragment(_, _, inner) =>
        fields' := Filter(fields', frags, inner, name, depth - 1);
      case FragmentSpread(spread, _) =>
        if spread in frags {
          fields' := Filter(fields', frags, frags[spread].items, name, depth - 1);
        }
    }
  }

  lemma OnlyNamedOne(s: Selection, name: Name)
    ensures OnlyNamed([s], name) == if s.Field? && s.name == name then [s] else []
  {
    assert [s][..0] == [];
  }

  /** The bodies of the fields a look-ahead covers, each flattened and filtered, one after another. */
  function Ahead(frags: Fragments, covered: seq<Selection>, name: Name, ghost depth: nat): seq<Selection>
    requires forall i :: 0 <= i < |covered| ==> covered[i].Field? && Bounded(frags, covered[i].items, depth)
  {
    if covered == [] then []
    else
      Ahead(frags, covered[..|covered| - 1], name, depth) +
      OnlyNamed(Flatten(frags, covered[|covered| - 1].items, depth), name)
  }

  /** The bodies of all covered fields, one after another. */
  function Bodies(covered: seq<Selection>): seq<Selection>
    requires forall i :: 0 <= i < |covered| ==> covered[i].Field?
  {
    if covered == [] then [] else Bodies(covered[..|covered| - 1]) + covered[|covered| - 1].items
  }

  function IsNamed(name: Name): Selection -> bool {
    (s: Selection) => s.Field? && s.name == name
  }

  lemma {:induction false} OnlyNamedIsWalk(frags: Fragments, items: seq<Selection>, name: Name, depth: nat)
    requires Bounded(frags, items, depth)
    ensures OnlyNamed(Walk(frags, items, IsFragment(), IsField(), depth), name)
         == Walk(frags, items, IsFragment(), IsNamed(name), depth)
    decreases depth, 1, |items|
  {
    if items != [] {
      var n := |items| - 1;
      BoundedParts(frags, items, n, depth);
      OnlyNamedIsWalk(frags, items[..n], name, depth);
      OnlyNamedOneIsWalk(frags, items[n], name, depth);
      OnlyNamedConcat(Walk(frags, items[..n], IsFragment(), IsField(), depth),
                      WalkOne(frags, items[n], IsFragment(), IsField(), depth), name);
    }
  }

  lemma {:induction false} OnlyNamedOneIsWalk(frags: Fragments, s: Selection, name: Name, depth: nat)
    requires BelowBounded(frags, s, depth)
    ensures OnlyNamed(WalkOne(frags, s, IsFragment(), IsField(), depth), name)
         == WalkOne(frags, s, IsFragment(), IsNamed(name), depth)
    decreases depth, 0
  {
    JoinedWith(frags, s, IsFragment(), IsField(), depth);
    JoinedWith(frags, s, IsFragment(), IsNamed(name), depth);
    if s.Field? {
      OnlyNamedOne(s, name);
    } else if Child(frags, s).Some? {
      OnlyNamedIsWalk(frags, Child(frags, s).value, name, depth - 1);
    }
  }

  lemma BoundedConcat(frags: Fragments, a: seq<Selection>, b: seq<Selection>, depth: nat)
    requires Bounded(frags, a, depth) && Bounded(frags, b, depth)
    ensures Bounded(frags, a + b, depth)
  {}

  lemma FlattenFirst(frags: Fragments, items: seq<Selection>, depth: nat)
    requires Bounded(frags, items, depth) && items != []
    ensures Bounded(frags, items[1..], depth) && BelowBounded(frags, items[0], depth)
    ensures Flatten(frags, items, depth) == FlattenOne(frags, items[0], depth) + Flatten(frags, items[1..], depth)
  {
    BoundedSlice(frags, items, 1, |items|, depth);
    assert items[1..|items|] == items[1..];
  }

  lemma {:induction false} FlattenConcat(frags: Fragments, a: seq<Selection>, b: seq<Selection>, depth: nat)
    requires Bounded(frags, a, depth) && Bounded(frags, b, depth) && Bounded(frags, a + b, depth)
    ensures Flatten(frags, a + b, depth) == Flatten(frags, a, depth) + Flatten(frags, b, depth)
    decreases |a|
  {
    if a == [] {
      assert a + b == b;
    } else {
      var rest := a[1..];
      FlattenFirst(frags, a, depth);
      FlattenFirst(frags, a + b, depth);
      FirstOfConcat(a, b);
      FlattenConcat(frags, rest, b, depth);
      ConcatAssociative(FlattenOne(frags, a[0], depth), Flatten(frags, rest, depth), Flatten(frags, b, depth));
    }
  }

  lemma FirstOfConcat(a: seq<Selection>, b: seq<Selection>)
    requires a != []
    ensures (a + b)[0] == a[0] && (a + b)[1..] == a[1..] + b
  {}

  lemma ConcatAssociative(a: seq<Selection>, b: seq<Selection>, c: seq<Selection>)
    ensures a + (b + c) == (a + b) + c
  {}

  /** What a look-ahead by name finds: the fields of that name reached through fragments from the bodies of
      all covered fields, in order. */
  lemma {:induction false} AheadIsWalk(frags: Fragments, covered: seq<Selection>, name: Name, depth: nat)
    requires forall i :: 0 <= i < |covered| ==> covered[i].Field? && Bounded(frags, covered[i].items, depth)
    ensures Bounded(frags, Bodies(covered), depth)
    ensures Ahead(frags, covered, name, depth) == OnlyNamed(Flatten(frags, Bodies(covered), depth), name)
    ensures Ahead(frags, covered, name, depth) == Walk(frags, Bodies(covered), IsFragment(), IsNamed(name), depth)
    decreases |covered|
  {
    if covered != [] {
      var n := |covered| - 1;
      var front, last := Bodies(covered[..n]), covered[n].items;
      AheadIsWalk(frags, covered[..n], name, depth);
      BoundedConcat(frags, front, last, depth);
      FlattenConcat(frags, front, last, depth);
      OnlyNamedConcat(Flatten(frags, front, depth), Flatten(frags, last, depth), name);
    }
    FlattenIsWalk(frags, Bodies(covered), depth);
    OnlyNamedIsWalk(frags, Bodies(covered), name, depth);
  }

  method LookaheadField(frags: Fragments, covered: seq<Selection>, name: Name, ghost depth: nat)
    returns (fields: seq<Selection>)
    requires forall i :: 0 <= i < |covered| ==> covered[i].Field? && Bounded(frags, covered[i].items, depth)
    ensures fields == Ahead(frags, covered, name, depth)
  {
    fields := [];
    for i := 0 to |covered|
      invariant fields == Ahead(frags, covered[..i], name, depth)
    {
      assert covered[..i + 1][..i] == covered[..i];
      fields := Filter(fields, frags, covered[i].items, name, depth);
    }
    assert covered[..|covered|] == covered;
  }

  // ----- collect_fields of the dynamic resolver -----

  function Prepend(fields: seq<Selection>, r: Result<seq<Selection>, Name>): Result<seq<Selection>, Name> {
    match r
    case Ok(more) => Ok(fields + more)
    case Err(e) => Err(e)
  }

  lemma CollectNext(fields: seq<Selection>, sofar: seq<Selection>, frags: Fragments, items: seq<Selection>,
                    applies: Name -> bool, depth: nat, i: nat)
    requires Bounded(frags, items, depth) && i < |items| && Bounded(frags, items[..i], depth)
    requires Ok(sofar) == Prepend(fields, Collect(frags, items[..i], applies, depth))
    ensures Bounded(frags, items[..i + 1], depth) && BelowBounded(frags, items[i], depth)
    ensures Prepend(sofar, CollectOne(frags, items[i], applies, depth))
         == Prepend(fields, Collect(frags, items[..i + 1], applies, depth))
  {
    assert items[..i + 1] == items[..i] + [items[i]];
    CollectSnoc(frags, items[..i], items[i], applies, depth);
    var one := CollectOne(frags, items[i], applies, depth);
    if one.Ok? {
      var before := Collect(frags, items[..i], applies, depth).value;
      assert fields + before + one.value == fields + (before + one.value);
    }
  }

  /** Pushes the fields of one object; an unknown fragment fails. */
  method CollectFields(fields: seq<Selection>, frags: Fragments, items: seq<Selection>, applies: Name -> bool,
                       ghost depth: nat)
    returns (r: Result<seq<Selection>, Name>)
    requires Bounded(frags, items, depth)
    ensures r == Prepend(fields, Collect(frags, items, applies, depth))
    decreases depth, 1
  {
    var fields' := fields;
    assert fields + [] == fields;
    for i := 0 to |items|
      invariant Bounded(frags, items[..i], depth)
      invariant Ok(fields') == Prepend(fields, Collect(frags, items[..i], applies, depth))
    {
      CollectNext(fields, fields', frags, items, applies, depth, i);
      var more := CollectSelection(fields', frags, items[i], applies, depth);
      if more.Err? {
        CollectErrorKept(frags, items, applies, depth, i + 1);
        return more;
      }
      fields' := more.value;
    }
    assert items[..|items|] == items;
    r := Ok(fields');
  }

  /** The body of its loop. */
  method CollectSelection(fields: seq<Selection>, frags: Fragments, s: Selection, applies: Name -> bool,
                          ghost depth: nat)
    returns (r: Result<seq<Selection>, Name>)
    requires BelowBounded(frags, s, depth)
    ensures r == Prepend(fields, CollectOne(frags, s, applies, depth))
    decreases depth, 0
  {
    if s.Field? {
      return Ok(fields + [s]);
    }
    if s.FragmentSpread? && s.fragment !in frags {
      return Err(s.fragment);
    }
    var condition := if s.FragmentSpread? then Some(frags[s.fragment].condition) else s.condition;
    var inner := if s.FragmentSpread? then frags[s.fragment].items else s.items;
    if condition.None? || applies(condition.value) {
      r := CollectFields(fields, frags, inner, applies, depth - 1);
    } else {
      assert fields + [] == fields;
      r := Ok(fields);
    }
  }

  lemma {:induction false} CollectErrorKept(frags: Fragments, items: seq<Selection>, applies: Name -> bool,
                                            depth: nat, i: nat)
    requires Bounded(frags, items, depth) && i <= |items|
    ensures Bounded(frags, items[..i], depth)
    ensures Collect(frags, items[..i], applies, depth).Err? ==>
              Collect(frags, items, applies, depth) == Collect(frags, items[..i], applies, depth)
    decreases |items| - i
  {
    if i < |items| {
      CollectErrorKept(frags, items, applies, depth, i + 1);
      assert items[..i + 1] == items[..i] + [items[i]];
      CollectSnoc(frags, items[..i], items[i], applies, depth);
    } else {
      assert items[..i] == items;
    }
  }

  // ----- from the raw document to the resolver -----

  lemma PreparedBounded(doc: ExecutableDocument, i: nat, vars: Variables, max: nat)
    requires CheckRecursiveDepth(doc, max) && i < |doc.operations|
    ensures Bounded(doc.fragments, doc.operations[i].items, max)
    ensures var items, frags := Prune(doc.operations[i].items, vars), PruneFragments(doc.fragments, vars);
            Bounded(frags, items, max) && DepthOk(frags, items, 0, max)
  {
    var items := doc.operations[i].items;
    DepthOkIsBounded(doc.fragments, items, 0, max);
    PruneKeepsDepth(doc.fragments, items, vars, max);
    DepthOkIsBounded(PruneFragments(doc.fragments, vars), Prune(items, vars), 0, max);
  }

  /** A document that passed the depth check is, after the rewrite of `prepare_request`, still within
      the same depth, and collecting the fields of its operation for any object gives what the
      original document prescribes. */
  lemma PreparedDocument(doc: ExecutableDocument, i: nat, vars: Variables, max: nat, applies: Name -> bool)
    requires CheckRecursiveDepth(doc, max) && i < |doc.operations|
    ensures var op := doc.operations[i];
            var completed := WithDefaults(op.variables, vars);
            var items, frags := Prune(op.items, completed), PruneFragments(doc.fragments, completed);
            && Bounded(doc.fragments, op.items, max) && Bounded(frags, items, max)
            && DepthOk(frags, items, 0, max)
            && Collect(frags, items, applies, max)
            == PruneResult(CollectIncluded(doc.fragments, op.items, completed, applies, max), completed)
  {
    var op := doc.operations[i];
    var completed := WithDefaults(op.variables, vars);
    PreparedBounded(doc, i, completed, max);
    RewriteKeepsMeaning(doc.fragments, op.items, completed, applies, max);
  }
}
