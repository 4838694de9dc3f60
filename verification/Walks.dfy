/** Walking through a document: which selections a walk finds, and in which order.  The checks, the
    iterator and field collection are all walks. */
module Walks {
  import opened Wrappers
  import opened Document

  // ----- trails -----

  /** The selection at the end of a trail, which names one selection on each level. */
  function SelectionAt(frags: Fragments, items: seq<Selection>, trail: seq<nat>): Option<Selection>
    decreases |trail|
  {
    if trail == [] || |items| <= trail[0] then None
    else if |trail| == 1 then Some(items[trail[0]])
    else
      match Child(frags, items[trail[0]])
      case Some(inner) => SelectionAt(frags, inner, trail[1..])
      case None => None
  }

  /** A trail that goes down through selections to be entered only. */
  predicate Visits(frags: Fragments, items: seq<Selection>, trail: seq<nat>, enter: Selection -> bool)
    decreases |trail|
  {
    && trail != [] && trail[0] < |items|
    && (|trail| == 1 ||
        (enter(items[trail[0]]) && Child(frags, items[trail[0]]).Some?
         && Visits(frags, Child(frags, items[trail[0]]).value, trail[1..], enter)))
  }

  /** Document order: a selection comes before what is below it, and before its later siblings. */
  predicate Before(p: seq<nat>, q: seq<nat>) {
    q != [] && (p == [] || p[0] < q[0] || (p[0] == q[0] && Before(p[1..], q[1..])))
  }

  ghost predicate InDocumentOrder(trails: seq<seq<nat>>) {
    forall i, j :: 0 <= i < j < |trails| ==> Before(trails[i], trails[j])
  }

  /** Every trail leads to a selection to keep. */
  ghost predicate Leads(frags: Fragments, items: seq<Selection>, enter: Selection -> bool, keep: Selection -> bool,
                        trails: seq<seq<nat>>, found: seq<Selection>)
  {
    |trails| == |found| && forall i :: 0 <= i < |trails| ==> LeadsTo(frags, items, enter, keep, trails[i], found[i])
  }

  predicate LeadsTo(frags: Fragments, items: seq<Selection>, enter: Selection -> bool, keep: Selection -> bool,
                    trail: seq<nat>, s: Selection)
  {
    Visits(frags, items, trail, enter) && SelectionAt(frags, items, trail) == Some(s) && keep(s)
  }

  /** No trail from selection `from` on to a selection to keep is missing. */
  ghost predicate Complete(frags: Fragments, items: seq<Selection>, enter: Selection -> bool, keep: Selection -> bool,
                           trails: seq<seq<nat>>, from: nat)
  {
    forall trail, s :: LeadsTo(frags, items, enter, keep, trail, s) && from <= trail[0] ==> trail in trails
  }

  /** The trails lead, in document order, to exactly the selections to keep that can be visited, and those
      are the ones found. */
  ghost predicate Finds(frags: Fragments, items: seq<Selection>, enter: Selection -> bool, keep: Selection -> bool,
                        trails: seq<seq<nat>>, found: seq<Selection>)
  {
    && Leads(frags, items, enter, keep, trails, found) && InDocumentOrder(trails)
    && Complete(frags, items, enter, keep, trails, 0)
  }

  // ----- the walk -----

  ghost predicate BelowBounded(frags: Fragments, s: Selection, depth: nat) {
    Child(frags, s).Some? ==> 0 < depth && Bounded(frags, Child(frags, s).value, depth - 1)
  }

  /** What a walk finds: it keeps some selections, and goes down into some. */
  function Walk(frags: Fragments, items: seq<Selection>, enter: Selection -> bool, keep: Selection -> bool,
                ghost depth: nat): seq<Selection>
    requires Bounded(frags, items, depth)
    decreases depth, 1, |items|
  {
    if items == [] then []
    else
      BoundedParts(frags, items, |items| - 1, depth);
      Walk(frags, items[..|items| - 1], enter, keep, depth) + WalkOne(frags, items[|items| - 1], enter, keep, depth)
  }

  function WalkOne(frags: Fragments, s: Selection, enter: Selection -> bool, keep: Selection -> bool, ghost depth: nat)
    : seq<Selection>
    requires BelowBounded(frags, s, depth)
    decreases depth, 0, 1
  {
    Here(s, keep) + WalkBelow(frags, s, enter, keep, depth)
  }

  function WalkBelow(frags: Fragments, s: Selection, enter: Selection -> bool, keep: Selection -> bool,
                     ghost depth: nat): seq<Selection>
    requires BelowBounded(frags, s, depth)
    decreases depth, 0, 0
  {
    if enter(s) && Child(frags, s).Some? then Walk(frags, Child(frags, s).value, enter, keep, depth - 1) else []
  }

  ghost predicate AllKept(found: seq<Selection>, keep: Selection -> bool) {
    forall i :: 0 <= i < |found| ==> keep(found[i])
  }

  /** Whatever is found is to be kept. */
  lemma WalkKeeps(frags: Fragments, items: seq<Selection>, enter: Selection -> bool, keep: Selection -> bool,
                  depth: nat)
    requires Bounded(frags, items, depth)
    ensures AllKept(Walk(frags, items, enter, keep, depth), keep)
  {
    var trails := WalkMeaning(frags, items, enter, keep, depth);
  }

  lemma WalkOneKeeps(frags: Fragments, s: Selection, enter: Selection -> bool, keep: Selection -> bool, depth: nat)
    requires BelowBounded(frags, s, depth)
    ensures AllKept(WalkOne(frags, s, enter, keep, depth), keep)
  {
    if enter(s) && Child(frags, s).Some? {
      WalkKeeps(frags, Child(frags, s).value, enter, keep, depth - 1);
    }
  }

  lemma WalkSnoc(frags: Fragments, items: seq<Selection>, s: Selection, enter: Selection -> bool,
                 keep: Selection -> bool, depth: nat)
    requires Bounded(frags, items, depth) && BelowBounded(frags, s, depth)
    ensures Bounded(frags, items + [s], depth)
    ensures Walk(frags, items + [s], enter, keep, depth)
         == Walk(frags, items, enter, keep, depth) + WalkOne(frags, s, enter, keep, depth)
  {
    assert forall i :: 0 <= i < |items| ==> (items + [s])[i] == items[i];
    assert (items + [s])[..|items|] == items;
  }

  /** Entering the same selections finds the same. */
  lemma {:induction false} WalkSame(frags: Fragments, items: seq<Selection>, enter: Selection -> bool,
                                    enter': Selection -> bool, keep: Selection -> bool, depth: nat)
    requires Bounded(frags, items, depth) && forall s :: enter(s) == enter'(s)
    ensures Walk(frags, items, enter, keep, depth) == Walk(frags, items, enter', keep, depth)
    decreases depth, 1, |items|
  {
    if items != [] {
      var n := |items| - 1;
      BoundedParts(frags, items, n, depth);
      WalkSame(frags, items[..n], enter, enter', keep, depth);
      if enter(items[n]) && Child(frags, items[n]).Some? {
        WalkSame(frags, Child(frags, items[n]).value, enter, enter', keep, depth - 1);
      }
      assert WalkBelow(frags, items[n], enter, keep, depth) == WalkBelow(frags, items[n], enter', keep, depth);
    }
  }

  function Extend(n: nat, trails: seq<seq<nat>>): seq<seq<nat>> {
    seq(|trails|, i requires 0 <= i < |trails| => [n] + trails[i])
  }

  /** Trails in the front of a selection set are trails in all of it. */
  lemma TrailInFront(frags: Fragments, items: seq<Selection>, enter: Selection -> bool, keep: Selection -> bool,
                     trail: seq<nat>, s: Selection)
    requires items != []
    ensures LeadsTo(frags, items[..|items| - 1], enter, keep, trail, s) <==>
            LeadsTo(frags, items, enter, keep, trail, s) && trail[0] < |items| - 1
  {}

  /** Trails that go on below selection `n` are trails from there. */
  lemma TrailBelow(frags: Fragments, items: seq<Selection>, enter: Selection -> bool, keep: Selection -> bool,
                   n: nat, rest: seq<nat>, s: Selection)
    requires n < |items| && rest != []
    ensures LeadsTo(frags, items, enter, keep, [n] + rest, s) <==>
            && enter(items[n]) && Child(frags, items[n]).Some?
            && LeadsTo(frags, Child(frags, items[n]).value, enter, keep, rest, s)
  {
    assert ([n] + rest)[1..] == rest;
  }

  lemma ExtendOrder(n: nat, trails: seq<seq<nat>>)
    requires InDocumentOrder(trails)
    ensures InDocumentOrder(Extend(n, trails))
  {
    forall i, j | 0 <= i < j < |trails| ensures Before(Extend(n, trails)[i], Extend(n, trails)[j]) {
      assert ([n] + trails[i])[1..] == trails[i] && ([n] + trails[j])[1..] == trails[j];
    }
  }

  lemma OrderConcat(a: seq<seq<nat>>, b: seq<seq<nat>>)
    requires InDocumentOrder(a) && InDocumentOrder(b)
    requires forall p, q :: p in a && q in b ==> Before(p, q)
    ensures InDocumentOrder(a + b)
  {
    forall i, j | 0 <= i < j < |a + b| ensures Before((a + b)[i], (a + b)[j]) {
      if i < |a| <= j {
        assert a[i] in a && b[j - |a|] in b;
      }
    }
  }

  lemma LeadsConcat(frags: Fragments, items: seq<Selection>, enter: Selection -> bool, keep: Selection -> bool,
                    a: seq<seq<nat>>, found: seq<Selection>, b: seq<seq<nat>>, more: seq<Selection>)
    requires Leads(frags, items, enter, keep, a, found) && Leads(frags, items, enter, keep, b, more)
    ensures Leads(frags, items, enter, keep, a + b, found + more)
  {}

  /** What is found at and below the last selection. */
  ghost predicate FindsLast(frags: Fragments, items: seq<Selection>, enter: Selection -> bool, keep: Selection -> bool,
                            trails: seq<seq<nat>>, found: seq<Selection>)
    requires items != []
  {
    && Leads(frags, items, enter, keep, trails, found) && InDocumentOrder(trails)
    && Complete(frags, items, enter, keep, trails, |items| - 1)
    && forall i :: 0 <= i < |trails| ==> trails[i] != [] && trails[i][0] == |items| - 1
  }

  function Here(s: Selection, keep: Selection -> bool): seq<Selection> {
    if keep(s) then [s] else []
  }

  function HereTrail(s: Selection, keep: Selection -> bool, n: nat): seq<seq<nat>> {
    if keep(s) then [[n]] else []
  }

  lemma FindsHere(frags: Fragments, items: seq<Selection>, enter: Selection -> bool, keep: Selection -> bool)
    requires items != []
    ensures var n := |items| - 1;
            && Leads(frags, items, enter, keep, HereTrail(items[n], keep, n), Here(items[n], keep))
            && InDocumentOrder(HereTrail(items[n], keep, n))
            && forall s :: LeadsTo(frags, items, enter, keep, [n], s) ==> [n] in HereTrail(items[n], keep, n)
  {
    if keep(items[|items| - 1]) {
      assert [[|items| - 1]][0] == [|items| - 1];
    }
  }

  lemma BelowLeads(frags: Fragments, items: seq<Selection>, enter: Selection -> bool, keep: Selection -> bool,
                   n: nat, trails: seq<seq<nat>>, found: seq<Selection>)
    requires n < |items| && enter(items[n]) && Child(frags, items[n]).Some?
    requires Finds(frags, Child(frags, items[n]).value, enter, keep, trails, found)
    ensures Leads(frags, items, enter, keep, Extend(n, trails), found)
  {
    forall i | 0 <= i < |trails| ensures LeadsTo(frags, items, enter, keep, Extend(n, trails)[i], found[i]) {
      assert LeadsTo(frags, Child(frags, items[n]).value, enter, keep, trails[i], found[i]);
      TrailBelow(frags, items, enter, keep, n, trails[i], found[i]);
    }
  }

  lemma BelowComplete(frags: Fragments, items: seq<Selection>, enter: Selection -> bool, keep: Selection -> bool,
                      n: nat, trails: seq<seq<nat>>, rest: seq<nat>, s: Selection)
    requires n < |items| && enter(items[n]) && Child(frags, items[n]).Some? && rest != []
    requires Complete(frags, Child(frags, items[n]).value, enter, keep, trails, 0)
    requires LeadsTo(frags, items, enter, keep, [n] + rest, s)
    ensures [n] + rest in Extend(n, trails)
  {
    TrailBelow(frags, items, enter, keep, n, rest, s);
    assert rest in trails;
    var i :| 0 <= i < |trails| && trails[i] == rest;
    assert Extend(n, trails)[i] == [n] + rest;
  }

  lemma FindsBelow(frags: Fragments, items: seq<Selection>, enter: Selection -> bool, keep: Selection -> bool,
                   trails: seq<seq<nat>>, found: seq<Selection>)
    requires items != [] && enter(items[|items| - 1]) && Child(frags, items[|items| - 1]).Some?
    requires Finds(frags, Child(frags, items[|items| - 1]).value, enter, keep, trails, found)
    ensures var n := |items| - 1;
            FindsLast(frags, items, enter, keep, HereTrail(items[n], keep, n) + Extend(n, trails),
                      Here(items[n], keep) + found)
  {
    var n := |items| - 1;
    var here, below := HereTrail(items[n], keep, n), Extend(n, trails);
    FindsHere(frags, items, enter, keep);
    BelowLeads(frags, items, enter, keep, n, trails, found);
    LeadsConcat(frags, items, enter, keep, here, Here(items[n], keep), below, found);
    ExtendOrder(n, trails);
    assert forall p, q :: p in here && q in below ==> Before(p, q);
    OrderConcat(here, below);
    forall trail, s | LeadsTo(frags, items, enter, keep, trail, s) && n <= trail[0] ensures trail in here + below {
      if |trail| > 1 {
        assert trail == [n] + trail[1..];
        BelowComplete(frags, items, enter, keep, n, trails, trail[1..], s);
      } else {
        assert trail == [n];
      }
    }
  }

  lemma FindsOnlyHere(frags: Fragments, items: seq<Selection>, enter: Selection -> bool, keep: Selection -> bool)
    requires items != [] && !(enter(items[|items| - 1]) && Child(frags, items[|items| - 1]).Some?)
    ensures var n := |items| - 1;
            FindsLast(frags, items, enter, keep, HereTrail(items[n], keep, n), Here(items[n], keep))
  {
    var n := |items| - 1;
    FindsHere(frags, items, enter, keep);
    forall trail, s | LeadsTo(frags, items, enter, keep, trail, s) && n <= trail[0] ensures trail == [n] {}
  }

  lemma FindsSnoc(frags: Fragments, items: seq<Selection>, enter: Selection -> bool, keep: Selection -> bool,
                  trails: seq<seq<nat>>, found: seq<Selection>, more: seq<seq<nat>>, others: seq<Selection>)
    requires items != [] && Finds(frags, items[..|items| - 1], enter, keep, trails, found)
    requires FindsLast(frags, items, enter, keep, more, others)
    ensures Finds(frags, items, enter, keep, trails + more, found + others)
  {
    var n := |items| - 1;
    forall i | 0 <= i < |trails|
      ensures LeadsTo(frags, items, enter, keep, trails[i], found[i]) && trails[i][0] < n
    {
      TrailInFront(frags, items, enter, keep, trails[i], found[i]);
    }
    LeadsConcat(frags, items, enter, keep, trails, found, more, others);
    OrderConcat(trails, more);
    forall trail, s | LeadsTo(frags, items, enter, keep, trail, s) ensures trail in trails + more {
      TrailInFront(frags, items, enter, keep, trail, s);
    }
  }

  lemma {:induction false} WalkLastMeaning(frags: Fragments, items: seq<Selection>, enter: Selection -> bool,
                                           keep: Selection -> bool, depth: nat) returns (trails: seq<seq<nat>>)
    requires items != [] && BelowBounded(frags, items[|items| - 1], depth)
    ensures FindsLast(frags, items, enter, keep, trails, WalkOne(frags, items[|items| - 1], enter, keep, depth))
    decreases depth, 0
  {
    var n := |items| - 1;
    if enter(items[n]) && Child(frags, items[n]).Some? {
      var inner := Child(frags, items[n]).value;
      var below := WalkMeaning(frags, inner, enter, keep, depth - 1);
      FindsBelow(frags, items, enter, keep, below, Walk(frags, inner, enter, keep, depth - 1));
      trails := HereTrail(items[n], keep, n) + Extend(n, below);
      assert WalkOne(frags, items[n], enter, keep, depth)
          == Here(items[n], keep) + Walk(frags, inner, enter, keep, depth - 1);
    } else {
      FindsOnlyHere(frags, items, enter, keep);
      trails := HereTrail(items[n], keep, n);
      assert WalkOne(frags, items[n], enter, keep, depth) == Here(items[n], keep) + [] == Here(items[n], keep);
    }
  }

  /** A walk finds exactly the selections to keep that can be reached through selections to be entered,
      once for every way to reach them, in document order. */
  lemma {:induction false} WalkMeaning(frags: Fragments, items: seq<Selection>, enter: Selection -> bool,
                                       keep: Selection -> bool, depth: nat) returns (trails: seq<seq<nat>>)
    requires Bounded(frags, items, depth)
    ensures Finds(frags, items, enter, keep, trails, Walk(frags, items, enter, keep, depth))
    decreases depth, 1, |items|
  {
    trails := [];
    if items != [] {
      var n := |items| - 1;
      BoundedParts(frags, items, n, depth);
      var front := WalkMeaning(frags, items[..n], enter, keep, depth);
      var more := WalkLastMeaning(frags, items, enter, keep, depth);
      FindsSnoc(frags, items, enter, keep, front, Walk(frags, items[..n], enter, keep, depth),
                more, WalkOne(frags, items[n], enter, keep, depth));
      trails := front + more;
    }
  }

  // ----- the full expansion is a walk -----

  function Everything(): Selection -> bool {
    s => true
  }

  function IsField(): Selection -> bool {
    (s: Selection) => s.Field?
  }

  lemma {:induction false} ExpandOneIsWalk(frags: Fragments, s: Selection, depth: nat)
    requires BelowBounded(frags, s, depth)
    ensures ExpandOne(frags, s, depth) == WalkOne(frags, s, Everything(), IsField(), depth)
    decreases depth, 0
  {
    if Child(frags, s).Some? {
      ExpandIsWalk(frags, Child(frags, s).value, depth - 1);
    }
  }

  /** The full expansion enters everything and keeps the fields. */
  lemma {:induction false} ExpandIsWalk(frags: Fragments, items: seq<Selection>, depth: nat)
    requires Bounded(frags, items, depth)
    ensures Expand(frags, items, depth) == Walk(frags, items, Everything(), IsField(), depth)
    decreases depth, 1, |items|
  {
    if items != [] {
      var n := |items| - 1;
      BoundedParts(frags, items, n, depth);
      ExpandIsWalk(frags, items[..n], depth);
      ExpandOneIsWalk(frags, items[n], depth);
    }
  }
}
