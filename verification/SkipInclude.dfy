/** Removing skipped selections before execution, and collecting the fields that are left. */
module SkipInclude {
  import opened Wrappers
  import opened Document
  import opened Walks
  import opened InputValues

  // ----- conditions -----

  /** A value with every variable replaced, if all of them have a value. */
  function IntoConst(v: InputValue, vars: Variables): Option<Value>
    decreases v
  {
    match v
    case Variable(name) => Get(vars, name)
    case NullInput => Some(Null)
    case NumberInput(n) => Some(Number(n))
    case StringInput(t) => Some(String(t))
    case BooleanInput(b) => Some(Boolean(b))
    case BinaryInput(bs) => Some(Binary(bs))
    case EnumInput(e) => Some(Enum(e))
    case ListInput(items) =>
      (match IntoConstItems(items, vars)
       case Some(vs) => Some(List(vs))
       case None => None)
    case ObjectInput(fields) =>
      match IntoConstFields(fields, vars)
      case Some(fs) => Some(Object(fs))
      case None => None
  }

  function IntoConstItems(items: seq<InputValue>, vars: Variables): Option<seq<Value>>
    decreases items
  {
    if items == [] then Some([])
    else
      match (IntoConstItems(items[..|items| - 1], vars), IntoConst(items[|items| - 1], vars))
      case (Some(vs), Some(v)) => Some(vs + [v])
      case _ => None
  }

  function IntoConstFields(fields: seq<Named<InputValue>>, vars: Variables): Option<seq<Named<Value>>>
    decreases fields
  {
    if fields == [] then Some([])
    else
      match (IntoConstFields(fields[..|fields| - 1], vars), IntoConst(fields[|fields| - 1].value, vars))
      case (Some(fs), Some(v)) => Some(fs + [Named(fields[|fields| - 1].name, v)])
      case _ => None
  }

  /** The first argument of that name. */
  function GetArgument(arguments: seq<Named<InputValue>>, name: Name): Option<InputValue> {
    if arguments == [] then None
    else if arguments[0].name == name then Some(arguments[0].value)
    else GetArgument(arguments[1..], name)
  }

  /** The condition of a directive: a value that is missing or not a boolean counts as false. */
  function Condition(v: InputValue, vars: Variables): bool {
    match IntoConst(v, vars)
    case Some(Boolean(b)) => b
    case _ => false
  }

  predicate IsConditional(d: Directive) {
    d.name == "skip" || d.name == "include"
  }

  /** The loop of `is_skipped`: the first directive whose condition says so decides. */
  predicate IsSkipped(directives: seq<Directive>, vars: Variables) {
    if directives == [] then false
    else
      var d, rest := directives[0], directives[1..];
      if !IsConditional(d) then IsSkipped(rest, vars)
      else
        match GetArgument(d.arguments, "if")
        case None => IsSkipped(rest, vars)
        case Some(v) => if (d.name == "include") != Condition(v, vars) then true else IsSkipped(rest, vars)
  }

  /** An argument that is true: the literal, or a variable whose value is true. */
  predicate MeansTrue(v: InputValue, vars: Variables) {
    v == BooleanInput(true) || (v.Variable? && v.name in vars && vars[v.name] == Boolean(true))
  }

  /** The rule of sections 3.13.1 and 3.13.2 of the GraphQL October 2021 specification: a selection is left
      out if the condition of some @skip is true, or that of some @include is not. */
  ghost predicate Excluded(directives: seq<Directive>, vars: Variables) {
    exists i :: 0 <= i < |directives| && ExcludedBy(directives[i], vars)
  }

  ghost predicate ExcludedBy(d: Directive, vars: Variables) {
    exists j: nat :: IsFirst(d.arguments, "if", j) &&
                     if MeansTrue(d.arguments[j].value, vars) then d.name == "skip" else d.name == "include"
  }

  lemma ConditionMeansTrue(v: InputValue, vars: Variables)
    ensures Condition(v, vars) <==> MeansTrue(v, vars)
  {}

  lemma {:induction false} GetArgumentIsFirst(arguments: seq<Named<InputValue>>, name: Name)
    ensures GetArgument(arguments, name).None? <==> forall i :: 0 <= i < |arguments| ==> arguments[i].name != name
    ensures forall j: nat :: IsFirst(arguments, name, j) ==> GetArgument(arguments, name) == Some(arguments[j].value)
  {
    if arguments != [] {
      var rest := arguments[1..];
      GetArgumentIsFirst(rest, name);
      assert forall i :: 0 <= i < |rest| ==> rest[i] == arguments[i + 1];
      assert forall i :: 1 <= i < |arguments| ==> arguments[i] == rest[i - 1];
      forall j: nat | IsFirst(arguments, name, j) && j > 0
        ensures GetArgument(arguments, name) == Some(arguments[j].value)
      {
        assert IsFirst(rest, name, j - 1);
      }
    }
  }

  /** One directive, as the loop reads it. */
  lemma DirectiveDecides(d: Directive, vars: Variables)
    ensures ExcludedBy(d, vars) <==>
            && IsConditional(d) && GetArgument(d.arguments, "if").Some?
            && (d.name == "include") != Condition(GetArgument(d.arguments, "if").value, vars)
  {
    GetArgumentIsFirst(d.arguments, "if");
    if n: nat :| n < |d.arguments| && d.arguments[n].name == "if" {
      FirstExists(d.arguments, "if", n);
      var j: nat :| IsFirst(d.arguments, "if", j);
      ConditionMeansTrue(d.arguments[j].value, vars);
      assert GetArgument(d.arguments, "if") == Some(d.arguments[j].value);
    }
  }

  lemma {:induction false} SkippedIsExcluded(directives: seq<Directive>, vars: Variables)
    ensures IsSkipped(directives, vars) <==> Excluded(directives, vars)
  {
    if directives != [] {
      var rest := directives[1..];
      SkippedIsExcluded(rest, vars);
      DirectiveDecides(directives[0], vars);
      if Excluded(rest, vars) {
        var i :| 0 <= i < |rest| && ExcludedBy(rest[i], vars);
        assert ExcludedBy(directives[i + 1], vars);
      }
      if Excluded(directives, vars) && !ExcludedBy(directives[0], vars) {
        var i :| 0 <= i < |directives| && ExcludedBy(directives[i], vars);
        assert rest[i - 1] == directives[i];
      }
      assert ExcludedBy(directives[0], vars) ==> Excluded(directives, vars);
    }
  }

  // ----- the rewrite -----

  function Strip(directives: seq<Directive>): seq<Directive> {
    if directives == [] then []
    else
      Strip(directives[..|directives| - 1]) +
      if IsConditional(directives[|directives| - 1]) then [] else [directives[|directives| - 1]]
  }

  /** What is left of a selection set. */
  function Prune(items: seq<Selection>, vars: Variables): seq<Selection>
    decreases items
  {
    if items == [] then []
    else
      Prune(items[..|items| - 1], vars) +
      var s := items[|items| - 1];
      if IsSkipped(s.directives, vars) then [] else [PruneOne(s, vars)]
  }

  function PruneOne(s: Selection, vars: Variables): Selection
    decreases s
  {
    match s
    case Field(alias, name, arguments, directives, items) =>
      Field(alias, name, arguments, Strip(directives), Prune(items, vars))
    case FragmentSpread(fragment, directives) => FragmentSpread(fragment, Strip(directives))
    case InlineFragment(condition, directives, items) =>
      InlineFragment(condition, Strip(directives), Prune(items, vars))
  }

  function PruneFragments(frags: Fragments, vars: Variables): Fragments {
    map name | name in frags :: Fragment(frags[name].condition, Prune(frags[name].items, vars))
  }

  // ----- the passes of remove_skipped_selection -----

  function Retain(items: seq<Selection>, vars: Variables): seq<Selection> {
    if items == [] then []
    else Retain(items[..|items| - 1], vars) +
         if IsSkipped(items[|items| - 1].directives, vars) then [] else [items[|items| - 1]]
  }

  function WithDirectives(s: Selection, directives: seq<Directive>): Selection {
    match s
    case Field(alias, name, arguments, _, items) => Field(alias, name, arguments, directives, items)
    case FragmentSpread(fragment, _) => FragmentSpread(fragment, directives)
    case InlineFragment(condition, _, items) => InlineFragment(condition, directives, items)
  }

  lemma {:induction false} PruneIsRetain(items: seq<Selection>, vars: Variables)
    ensures |Prune(items, vars)| == |Retain(items, vars)|
    ensures forall i :: 0 <= i < |Retain(items, vars)| ==>
              Retain(items, vars)[i] in items && Prune(items, vars)[i] == PruneOne(Retain(items, vars)[i], vars)
    decreases |items|
  {
    if items != [] {
      PruneIsRetain(items[..|items| - 1], vars);
      assert items[|items| - 1] in items;
    }
  }

  method StripDirectives(directives: seq<Directive>) returns (kept: seq<Directive>)
    ensures kept == Strip(directives)
  {
    kept := [];
    for i := 0 to |directives|
      invariant kept == Strip(directives[..i])
    {
      assert directives[..i + 1][..i] == directives[..i];
      if directives[i].name != "skip" && directives[i].name != "include" {
        kept := kept + [directives[i]];
      }
    }
    assert directives[..|directives|] == directives;
  }

  method RetainSelections(items: seq<Selection>, vars: Variables) returns (left: seq<Selection>)
    ensures left == Retain(items, vars)
  {
    left := [];
    for i := 0 to |items|
      invariant left == Retain(items[..i], vars)
    {
      assert items[..i + 1][..i] == items[..i];
      if !IsSkipped(items[i].directives, vars) {
        left := left + [items[i]];
      }
    }
    assert items[..|items|] == items;
  }

  method StripEach(items: seq<Selection>) returns (left: seq<Selection>)
    ensures |left| == |items|
    ensures forall j :: 0 <= j < |items| ==> left[j] == WithDirectives(items[j], Strip(items[j].directives))
  {
    left := items;
    for i := 0 to |items|
      invariant |left| == |items|
      invariant forall j :: 0 <= j < i ==> left[j] == WithDirectives(items[j], Strip(items[j].directives))
      invariant forall j :: i <= j < |left| ==> left[j] == items[j]
    {
      var kept := StripDirectives(left[i].directives);
      left := left[i := WithDirectives(left[i], kept)];
    }
  }

  /** Three passes over one selection set: drop what is skipped, drop the conditions, go down. */
  method RemoveSkippedSelection(items: seq<Selection>, vars: Variables) returns (left: seq<Selection>)
    ensures left == Prune(items, vars)
    decreases items
  {
    ghost var retained := Retain(items, vars);
    PruneIsRetain(items, vars);
    left := RetainSelections(items, vars);
    left := StripEach(left);
    for i := 0 to |left|
      invariant |left| == |retained|
      invariant forall j :: 0 <= j < i ==> left[j] == Prune(items, vars)[j]
      invariant forall j :: i <= j < |left| ==> left[j] == WithDirectives(retained[j], Strip(retained[j].directives))
    {
      assert retained[i] in items;
      match left[i] {
        case Field(alias, name, arguments, directives, inner) =>
          var inner' := RemoveSkippedSelection(inner, vars);
          left := left[i := Field(alias, name, arguments, directives, inner')];
        case FragmentSpread(_, _) =>
        case InlineFragment(condition, directives, inner) =>
          var inner' := RemoveSkippedSelection(inner, vars);
          left := left[i := InlineFragment(condition, directives, inner')];
      }
    }
  }

  /** The end of `prepare_request`: complete the variables, then rewrite every fragment and the
      operation. */
  method PrepareRequest(op: Operation, frags: Fragments, vars: Variables)
    returns (items: seq<Selection>, frags': Fragments)
    ensures items == Prune(op.items, WithDefaults(op.variables, vars))
    ensures frags' == PruneFragments(frags, WithDefaults(op.variables, vars))
  {
    var completed := CompleteVariables(op.variables, vars);
    frags' := frags;
    var todo := frags.Keys;
    while todo != {}
      invariant todo <= frags.Keys && frags'.Keys == frags.Keys
      invariant forall name :: name in frags ==>
                  frags'[name] == if name in todo then frags[name]
                                  else Fragment(frags[name].condition, Prune(frags[name].items, completed))
      decreases |todo|
    {
      var name :| name in todo;
      var body := RemoveSkippedSelection(frags'[name].items, completed);
      frags' := frags'[name := Fragment(frags'[name].condition, body)];
      todo := todo - {name};
    }
    items := RemoveSkippedSelection(op.items, completed);
  }

  // ----- what the rewrite keeps -----

  lemma {:induction false} StripMeaning(directives: seq<Directive>)
    ensures forall d :: multiset(Strip(directives))[d] == if IsConditional(d) then 0 else multiset(directives)[d]
    ensures forall i :: 0 <= i < |Strip(directives)| ==> !IsConditional(Strip(directives)[i])
  {
    if directives != [] {
      StripMeaning(directives[..|directives| - 1]);
      assert directives == directives[..|directives| - 1] + [directives[|directives| - 1]];
    }
  }

  lemma {:induction false} NothingToStrip(directives: seq<Directive>, vars: Variables)
    requires forall i :: 0 <= i < |directives| ==> !IsConditional(directives[i])
    ensures Strip(directives) == directives && !IsSkipped(directives, vars)
  {
    SkippedIsExcluded(directives, vars);
    StripNone(directives);
  }

  lemma {:induction false} StripNone(directives: seq<Directive>)
    requires forall i :: 0 <= i < |directives| ==> !IsConditional(directives[i])
    ensures Strip(directives) == directives
  {
    if directives != [] {
      StripNone(directives[..|directives| - 1]);
      assert directives == directives[..|directives| - 1] + [directives[|directives| - 1]];
    }
  }

  lemma PruneSnoc(items: seq<Selection>, s: Selection, vars: Variables)
    ensures Prune(items + [s], vars) ==
            Prune(items, vars) + if IsSkipped(s.directives, vars) then [] else [PruneOne(s, vars)]
  {
    assert (items + [s])[..|items|] == items;
  }

  /** Rewriting a rewritten selection set changes nothing, even for other variables. */
  lemma {:induction false} PruneIdempotent(items: seq<Selection>, vars: Variables, again: Variables)
    ensures Prune(Prune(items, vars), again) == Prune(items, vars)
    decreases items
  {
    if items != [] {
      var front, s := items[..|items| - 1], items[|items| - 1];
      PruneIdempotent(front, vars, again);
      if !IsSkipped(s.directives, vars) {
        StripMeaning(s.directives);
        NothingToStrip(Strip(s.directives), again);
        if !s.FragmentSpread? {
          PruneIdempotent(s.items, vars, again);
        }
        PruneSnoc(Prune(front, vars), PruneOne(s, vars), again);
      } else {
        assert Prune(items, vars) == Prune(front, vars);
      }
    }
  }

  /** The rewrite never makes selection sets nest deeper, so it keeps the depth limit. */
  lemma {:induction false} PruneKeepsDepth(frags: Fragments, items: seq<Selection>, vars: Variables, depth: nat)
    requires Bounded(frags, items, depth)
    ensures Bounded(PruneFragments(frags, vars), Prune(items, vars), depth)
    decreases depth
  {
    PruneIsRetain(items, vars);
    var left := Retain(items, vars);
    forall i | 0 <= i < |left| && Child(PruneFragments(frags, vars), Prune(items, vars)[i]).Some?
      ensures 0 < depth
      ensures var frags' := PruneFragments(frags, vars);
              Bounded(frags', Child(frags', Prune(items, vars)[i]).value, depth - 1)
    {
      var j :| 0 <= j < |items| && items[j] == left[i];
      var s := items[j];
      assert Prune([], vars) == [];
      assert Prune(items, vars)[i] == PruneOne(s, vars);
      assert Child(frags, s).Some?;
      PruneKeepsDepth(frags, Child(frags, items[j]).value, vars, depth - 1);
    }
  }

  // ----- collecting fields -----

  /** Depth-first collection of the fields of one object: fields in document order, through the
      fragments whose type condition applies to the object.  An unknown fragment is an error. */
  function Collect(frags: Fragments, items: seq<Selection>, applies: Name -> bool, ghost depth: nat)
    : Result<seq<Selection>, Name>
    requires Bounded(frags, items, depth)
    decreases depth, 1, |items|
  {
    if items == [] then Ok([])
    else
      match Collect(frags, items[..|items| - 1], applies, depth)
      case Err(e) => Err(e)
      case Ok(fields) =>
        match CollectOne(frags, items[|items| - 1], applies, depth)
        case Err(e) => Err(e)
        case Ok(more) => Ok(fields + more)
  }

  function CollectOne(frags: Fragments, s: Selection, applies: Name -> bool, ghost depth: nat)
    : Result<seq<Selection>, Name>
    requires Child(frags, s).Some? ==> 0 < depth && Bounded(frags, Child(frags, s).value, depth - 1)
    decreases depth, 0
  {
    match s
    case Field(_, _, _, _, _) => Ok([s])
    case FragmentSpread(name, _) =>
      if name !in frags then Err(name)
      else if applies(frags[name].condition) then Collect(frags, frags[name].items, applies, depth - 1)
      else Ok([])
    case InlineFragment(condition, _, items) =>
      if condition.None? || applies(condition.value) then Collect(frags, items, applies, depth - 1) else Ok([])
  }

  /** The reference: collect from the original document, leaving excluded selections out on the way
      (section 6.3.2 of the GraphQL October 2021 specification). */
  ghost function CollectIncluded(frags: Fragments, items: seq<Selection>, vars: Variables, applies: Name -> bool,
                                 depth: nat)
    : Result<seq<Selection>, Name>
    requires Bounded(frags, items, depth)
    decreases depth, 1, |items|
  {
    if items == [] then Ok([])
    else
      match CollectIncluded(frags, items[..|items| - 1], vars, applies, depth)
      case Err(e) => Err(e)
      case Ok(fields) =>
        match IncludedOne(frags, items[|items| - 1], vars, applies, depth)
        case Err(e) => Err(e)
        case Ok(more) => Ok(fields + more)
  }

  ghost function IncludedOne(frags: Fragments, s: Selection, vars: Variables, applies: Name -> bool, depth: nat)
    : Result<seq<Selection>, Name>
    requires Child(frags, s).Some? ==> 0 < depth && Bounded(frags, Child(frags, s).value, depth - 1)
    decreases depth, 0
  {
    if Excluded(s.directives, vars) then Ok([])
    else
      match s
      case Field(_, _, _, _, _) => Ok([s])
      case FragmentSpread(name, _) =>
        if name !in frags then Err(name)
        else if applies(frags[name].condition) then CollectIncluded(frags, frags[name].items, vars, applies, depth - 1)
        else Ok([])
      case InlineFragment(condition, _, items) =>
        if condition.None? || applies(condition.value) then CollectIncluded(frags, items, vars, applies, depth - 1)
        else Ok([])
  }

  function PruneEach(fields: seq<Selection>, vars: Variables): seq<Selection> {
    seq(|fields|, i requires 0 <= i < |fields| => PruneOne(fields[i], vars))
  }

  lemma CollectSnoc(frags: Fragments, items: seq<Selection>, s: Selection, applies: Name -> bool, depth: nat)
    requires Bounded(frags, items + [s], depth)
    ensures Bounded(frags, items, depth)
    ensures Child(frags, s).Some? ==> 0 < depth && Bounded(frags, Child(frags, s).value, depth - 1)
    ensures Collect(frags, items + [s], applies, depth) ==
            match Collect(frags, items, applies, depth)
            case Err(e) => Err(e)
            case Ok(fields) =>
              match CollectOne(frags, s, applies, depth)
              case Err(e) => Err(e)
              case Ok(more) => Ok(fields + more)
  {
    assert (items + [s])[..|items|] == items;
    assert (items + [s])[|items|] == s;
    assert forall i :: 0 <= i < |items| ==> (items + [s])[i] == items[i];
  }

  function PruneResult(r: Result<seq<Selection>, Name>, vars: Variables): Result<seq<Selection>, Name> {
    match r
    case Ok(fields) => Ok(PruneEach(fields, vars))
    case Err(e) => Err(e)
  }

  lemma PruneEachConcat(a: seq<Selection>, b: seq<Selection>, vars: Variables)
    ensures PruneEach(a + b, vars) == PruneEach(a, vars) + PruneEach(b, vars)
  {}

  lemma {:induction false} RewriteKeepsOne(frags: Fragments, s: Selection, vars: Variables,
                                           applies: Name -> bool, depth: nat)
    requires Child(frags, s).Some? ==> 0 < depth && Bounded(frags, Child(frags, s).value, depth - 1)
    requires !IsSkipped(s.directives, vars)
    ensures var frags', s' := PruneFragments(frags, vars), PruneOne(s, vars);
            && (Child(frags', s').Some? ==> 0 < depth && Bounded(frags', Child(frags', s').value, depth - 1))
            && CollectOne(frags', s', applies, depth) == PruneResult(IncludedOne(frags, s, vars, applies, depth), vars)
    decreases depth, 0
  {
    SkippedIsExcluded(s.directives, vars);
    assert PruneEach([], vars) == [] && PruneEach([s], vars) == [PruneOne(s, vars)];
    match s
    case Field(_, _, _, _, items) =>
      if items != [] {
        PruneKeepsDepth(frags, items, vars, depth - 1);
      } else {
        assert Prune(items, vars) == [];
      }
    case FragmentSpread(name, _) =>
      if name in frags {
        RewriteKeepsMeaning(frags, frags[name].items, vars, applies, depth - 1);
      }
    case InlineFragment(_, _, items) => RewriteKeepsMeaning(frags, items, vars, applies, depth - 1);
  }

  /** Collecting after the rewrite gives the fields that collecting from the original document, with
      the conditions evaluated on the way, gives: the same fields in the same order, each with its
      own body rewritten; or the same unknown fragment. */
  lemma {:induction false} RewriteKeepsMeaning(frags: Fragments, items: seq<Selection>, vars: Variables,
                                               applies: Name -> bool, depth: nat)
    requires Bounded(frags, items, depth)
    ensures Bounded(PruneFragments(frags, vars), Prune(items, vars), depth)
    ensures Collect(PruneFragments(frags, vars), Prune(items, vars), applies, depth)
         == PruneResult(CollectIncluded(frags, items, vars, applies, depth), vars)
    decreases depth, 1, |items|
  {
    PruneKeepsDepth(frags, items, vars, depth);
    assert PruneEach([], vars) == [];
    if items != [] {
      var n := |items| - 1;
      var s := items[n];
      var frags' := PruneFragments(frags, vars);
      assert Bounded(frags, items[..n], depth);
      RewriteKeepsMeaning(frags, items[..n], vars, applies, depth);
      SkippedIsExcluded(s.directives, vars);
      var before := CollectIncluded(frags, items[..n], vars, applies, depth);
      if before.Ok? {
        assert before.value + [] == before.value;
      }
      if IsSkipped(s.directives, vars) {
        assert Prune(items, vars) == Prune(items[..n], vars);
      } else {
        CollectSnoc(frags', Prune(items[..n], vars), PruneOne(s, vars), applies, depth);
        RewriteKeepsOne(frags, s, vars, applies, depth);
        var more := IncludedOne(frags, s, vars, applies, depth);
        if before.Ok? && more.Ok? {
          PruneEachConcat(before.value, more.value, vars);
        }
      }
    }
  }

  // ----- what collection and the rewrite mean, selection by selection -----

  /** The fragments that are gone through. */
  function Applicable(frags: Fragments, applies: Name -> bool): Selection -> bool {
    (s: Selection) =>
      match s
      case Field(_, _, _, _, _) => false
      case FragmentSpread(name, _) => name in frags && applies(frags[name].condition)
      case InlineFragment(condition, _, _) => condition.None? || applies(condition.value)
  }

  function IsUnknown(frags: Fragments): Selection -> bool {
    (s: Selection) => s.FragmentSpread? && s.fragment !in frags
  }

  /** The fields, unless an unknown fragment was met; then the first of those. */
  function UnlessUnknown(unknown: seq<Selection>, fields: seq<Selection>): Result<seq<Selection>, Name> {
    if unknown != [] && unknown[0].FragmentSpread? then Err(unknown[0].fragment) else Ok(fields)
  }

  lemma UnlessUnknownConcat(a: seq<Selection>, b: seq<Selection>, x: seq<Selection>, y: seq<Selection>)
    requires forall i :: 0 <= i < |a| ==> a[i].FragmentSpread?
    requires forall i :: 0 <= i < |b| ==> b[i].FragmentSpread?
    ensures UnlessUnknown(a + b, x + y) ==
            match UnlessUnknown(a, x)
            case Err(e) => Err(e)
            case Ok(fields) =>
              match UnlessUnknown(b, y)
              case Err(e) => Err(e)
              case Ok(more) => Ok(fields + more)
  {}

  /** Collection finds the fields reached through applicable fragments, or the first unknown fragment so
      reached. */
  lemma {:induction false} CollectIsWalk(frags: Fragments, items: seq<Selection>, applies: Name -> bool, depth: nat)
    requires Bounded(frags, items, depth)
    ensures Collect(frags, items, applies, depth)
         == UnlessUnknown(Walk(frags, items, Applicable(frags, applies), IsUnknown(frags), depth),
                          Walk(frags, items, Applicable(frags, applies), IsField(), depth))
    decreases depth, 1, |items|
  {
    if items != [] {
      var n, enter := |items| - 1, Applicable(frags, applies);
      BoundedParts(frags, items, n, depth);
      CollectIsWalk(frags, items[..n], applies, depth);
      CollectOneIsWalk(frags, items[n], applies, depth);
      WalkKeeps(frags, items[..n], enter, IsUnknown(frags), depth);
      WalkOneKeeps(frags, items[n], enter, IsUnknown(frags), depth);
      UnlessUnknownConcat(Walk(frags, items[..n], enter, IsUnknown(frags), depth),
                          WalkOne(frags, items[n], enter, IsUnknown(frags), depth),
                          Walk(frags, items[..n], enter, IsField(), depth),
                          WalkOne(frags, items[n], enter, IsField(), depth));
    }
  }

  lemma {:induction false} CollectOneIsWalk(frags: Fragments, s: Selection, applies: Name -> bool, depth: nat)
    requires BelowBounded(frags, s, depth)
    ensures CollectOne(frags, s, applies, depth)
         == UnlessUnknown(WalkOne(frags, s, Applicable(frags, applies), IsUnknown(frags), depth),
                          WalkOne(frags, s, Applicable(frags, applies), IsField(), depth))
    decreases depth, 0
  {
    var enter := Applicable(frags, applies);
    if enter(s) {
      CollectIsWalk(frags, Child(frags, s).value, applies, depth - 1);
    }
    JoinedWith(frags, s, enter, IsUnknown(frags), depth);
    JoinedWith(frags, s, enter, IsField(), depth);
  }

  /** A selection is found itself, or what is below it is, if only one of the two can be. */
  lemma JoinedWith(frags: Fragments, s: Selection, enter: Selection -> bool, keep: Selection -> bool, depth: nat)
    requires BelowBounded(frags, s, depth)
    ensures !keep(s) ==> WalkOne(frags, s, enter, keep, depth) == WalkBelow(frags, s, enter, keep, depth)
    ensures !enter(s) ==> WalkOne(frags, s, enter, keep, depth) == Here(s, keep)
  {
    assert [] + WalkBelow(frags, s, enter, keep, depth) == WalkBelow(frags, s, enter, keep, depth);
    assert Here(s, keep) + [] == Here(s, keep);
  }

  ghost function Including(p: Selection -> bool, vars: Variables): Selection -> bool {
    (s: Selection) => p(s) && !Excluded(s.directives, vars)
  }

  /** The reference leaves excluded selections out, and is collection otherwise. */
  lemma {:induction false} IncludedIsWalk(frags: Fragments, items: seq<Selection>, vars: Variables,
                                          applies: Name -> bool, depth: nat)
    requires Bounded(frags, items, depth)
    ensures CollectIncluded(frags, items, vars, applies, depth)
         == UnlessUnknown(Walk(frags, items, Including(Applicable(frags, applies), vars),
                               Including(IsUnknown(frags), vars), depth),
                          Walk(frags, items, Including(Applicable(frags, applies), vars),
                               Including(IsField(), vars), depth))
    decreases depth, 1, |items|
  {
    if items != [] {
      var n, enter := |items| - 1, Including(Applicable(frags, applies), vars);
      var unknown, field := Including(IsUnknown(frags), vars), Including(IsField(), vars);
      BoundedParts(frags, items, n, depth);
      IncludedIsWalk(frags, items[..n], vars, applies, depth);
      IncludedOneIsWalk(frags, items[n], vars, applies, depth);
      WalkKeeps(frags, items[..n], enter, unknown, depth);
      WalkOneKeeps(frags, items[n], enter, unknown, depth);
      UnlessUnknownConcat(Walk(frags, items[..n], enter, unknown, depth),
                          WalkOne(frags, items[n], enter, unknown, depth),
                          Walk(frags, items[..n], enter, field, depth), WalkOne(frags, items[n], enter, field, depth));
    }
  }

  lemma {:induction false} IncludedOneIsWalk(frags: Fragments, s: Selection, vars: Variables,
                                             applies: Name -> bool, depth: nat)
    requires BelowBounded(frags, s, depth)
    ensures IncludedOne(frags, s, vars, applies, depth)
         == UnlessUnknown(WalkOne(frags, s, Including(Applicable(frags, applies), vars),
                                  Including(IsUnknown(frags), vars), depth),
                          WalkOne(frags, s, Including(Applicable(frags, applies), vars),
                                  Including(IsField(), vars), depth))
    decreases depth, 0
  {
    var enter := Including(Applicable(frags, applies), vars);
    if enter(s) {
      IncludedIsWalk(frags, Child(frags, s).value, vars, applies, depth - 1);
    }
    JoinedWith(frags, s, enter, Including(IsUnknown(frags), vars), depth);
    JoinedWith(frags, s, enter, Including(IsField(), vars), depth);
  }

  /** What the rewrite keeps of a selection: everything but its conditions and its body. */
  lemma PruneKeepsParts(s: Selection, vars: Variables)
    ensures s.Field? ==> PruneOne(s, vars).Field? && PruneOne(s, vars).alias == s.alias
                         && PruneOne(s, vars).name == s.name && PruneOne(s, vars).arguments == s.arguments
    ensures s.FragmentSpread? ==> PruneOne(s, vars).FragmentSpread? && PruneOne(s, vars).fragment == s.fragment
    ensures s.InlineFragment? ==> PruneOne(s, vars).InlineFragment? && PruneOne(s, vars).condition == s.condition
    ensures PruneOne(s, vars).directives == Strip(s.directives)
  {}

  lemma {:induction false} StripConcat(a: seq<Directive>, b: seq<Directive>)
    ensures Strip(a + b) == Strip(a) + Strip(b)
  {
    if b == [] {
      assert a + b == a;
    } else {
      StripConcat(a, b[..|b| - 1]);
      assert (a + b)[..|a + b| - 1] == a + b[..|b| - 1];
    }
  }

  lemma ChildOfPruned(frags: Fragments, s: Selection, vars: Variables)
    ensures var child, child' := Child(frags, s), Child(PruneFragments(frags, vars), PruneOne(s, vars));
            && (child'.Some? ==> child.Some? && child'.value == Prune(child.value, vars))
            && (child'.None? && child.Some? ==> Prune(child.value, vars) == [])
  {
    assert Prune([], vars) == [];
  }

  lemma ExpandPrunedBelow(frags: Fragments, s: Selection, vars: Variables, depth: nat)
    requires BelowBounded(frags, s, depth) && !Excluded(s.directives, vars)
    ensures BelowBounded(PruneFragments(frags, vars), PruneOne(s, vars), depth)
    ensures WalkBelow(PruneFragments(frags, vars), PruneOne(s, vars), Everything(), IsField(), depth)
         == PruneEach(WalkBelow(frags, s, Including(Everything(), vars), Including(IsField(), vars), depth), vars)
    decreases depth, 0, 0
  {
    ChildOfPruned(frags, s, vars);
    assert PruneEach([], vars) == [];
    if Child(frags, s).Some? {
      ExpandPruned(frags, Child(frags, s).value, vars, depth - 1);
    }
  }

  lemma ExpandPrunedOne(frags: Fragments, s: Selection, vars: Variables, depth: nat)
    requires BelowBounded(frags, s, depth) && !Excluded(s.directives, vars)
    ensures BelowBounded(PruneFragments(frags, vars), PruneOne(s, vars), depth)
    ensures WalkOne(PruneFragments(frags, vars), PruneOne(s, vars), Everything(), IsField(), depth)
         == PruneEach(WalkOne(frags, s, Including(Everything(), vars), Including(IsField(), vars), depth), vars)
    decreases depth, 0, 1
  {
    var enter, keep := Including(Everything(), vars), Including(IsField(), vars);
    ExpandPrunedBelow(frags, s, vars, depth);
    PruneEachConcat(Here(s, keep), WalkBelow(frags, s, enter, keep, depth), vars);
    assert PruneEach(Here(s, keep), vars) == Here(PruneOne(s, vars), IsField());
  }

  /** At every depth, through every field and fragment, the rewritten document has exactly the rewritten
      fields of the original that are reached without passing an excluded selection, in the same order. */
  lemma {:induction false} ExpandPruned(frags: Fragments, items: seq<Selection>, vars: Variables, depth: nat)
    requires Bounded(frags, items, depth)
    ensures Bounded(PruneFragments(frags, vars), Prune(items, vars), depth)
    ensures Walk(PruneFragments(frags, vars), Prune(items, vars), Everything(), IsField(), depth)
         == PruneEach(Walk(frags, items, Including(Everything(), vars), Including(IsField(), vars), depth), vars)
    decreases depth, 1, |items|
  {
    PruneKeepsDepth(frags, items, vars, depth);
    if items != [] {
      var n, enter, keep := |items| - 1, Including(Everything(), vars), Including(IsField(), vars);
      BoundedParts(frags, items, n, depth);
      ExpandPruned(frags, items[..n], vars, depth);
      SkippedIsExcluded(items[n].directives, vars);
      if Excluded(items[n].directives, vars) {
        assert Prune(items, vars) == Prune(items[..n], vars);
        JoinedWith(frags, items[n], enter, keep, depth);
        assert Walk(frags, items, enter, keep, depth) == Walk(frags, items[..n], enter, keep, depth);
      } else {
        PruneEachConcat(Walk(frags, items[..n], enter, keep, depth), WalkOne(frags, items[n], enter, keep, depth),
                        vars);
        ExpandPrunedOne(frags, items[n], vars, depth);
        WalkSnoc(PruneFragments(frags, vars), Prune(items[..n], vars), PruneOne(items[n], vars), Everything(),
                 IsField(), depth);
      }
    }
  }

  /** Inside a rewritten field, collecting for any object gives what the original field prescribes. */
  lemma RewriteInsideFields(frags: Fragments, s: Selection, vars: Variables, applies: Name -> bool, depth: nat)
    requires s.Field? && Bounded(frags, s.items, depth)
    ensures Bounded(PruneFragments(frags, vars), PruneOne(s, vars).items, depth)
    ensures Collect(PruneFragments(frags, vars), PruneOne(s, vars).items, applies, depth)
         == PruneResult(CollectIncluded(frags, s.items, vars, applies, depth), vars)
  {
    RewriteKeepsMeaning(frags, s.items, vars, applies, depth);
  }
}
