/** Merged objects: the emitted `find_entity` and `find_entities`, which ask every member. */
module MergedEntities {
  import opened Wrappers
  import opened Document
  import opened Entities
  import opened MergeTree

  /** A member's `find_entities` and `find_entity`. */
  datatype MemberResolver = MemberResolver(
    findEntities: seq<Value> -> Result<Found, Error>,
    findEntity: Value -> Result<Option<Value>, Error>)

  /** The emitted chain over the members, last declared first. */
  function FindInMembers(members: seq<MemberResolver>, rep: Value): Result<Option<Value>, Error> {
    if members == [] then Ok(None)
    else
      match members[|members| - 1].findEntity(rep)
      case Err(e) => Err(e)
      case Ok(Some(v)) => Ok(Some(v))
      case Ok(None) => FindInMembers(members[..|members| - 1], rep)
  }

  /** The answer of the last declared member that has one. */
  function LastFound(members: seq<MemberResolver>, reps: seq<Value>, i: nat): Option<Value>
    requires i < |reps|
    requires forall k :: 0 <= k < |members| ==> AnswersAll(members[k], reps)
  {
    if members == [] then None
    else
      assert AnswersAll(members[|members| - 1], reps);
      var mine := members[|members| - 1].findEntities(reps).value[i];
      if mine.Some? then mine else LastFound(members[..|members| - 1], reps, i)
  }

  predicate AnswersAll(m: MemberResolver, reps: seq<Value>) {
    m.findEntities(reps).Ok? && |m.findEntities(reps).value| == |reps|
  }

  function Batched(m: MemberResolver, reps: seq<Value>, i: nat): Option<Value>
    requires i < |reps| && AnswersAll(m, reps)
  {
    m.findEntities(reps).value[i]
  }

  /** Member `k` is the last declared one whose batch has an answer. */
  predicate LastWithAnswer(members: seq<MemberResolver>, reps: seq<Value>, i: nat, k: nat)
    requires i < |reps| && forall m :: 0 <= m < |members| ==> AnswersAll(members[m], reps)
  {
    && k < |members| && Batched(members[k], reps, i).Some?
    && forall j :: k < j < |members| ==> Batched(members[j], reps, i).None?
  }

  lemma {:induction false} LastFoundMeaning(members: seq<MemberResolver>, reps: seq<Value>, i: nat)
    requires i < |reps| && forall m :: 0 <= m < |members| ==> AnswersAll(members[m], reps)
    ensures forall k: nat :: LastWithAnswer(members, reps, i, k) ==>
              LastFound(members, reps, i) == Batched(members[k], reps, i)
    ensures LastFound(members, reps, i).Some? ==> exists k: nat :: LastWithAnswer(members, reps, i, k)
  {
    if members != [] {
      var n := |members| - 1;
      LastFoundMeaning(members[..n], reps, i);
      if Batched(members[n], reps, i).Some? {
        assert LastWithAnswer(members, reps, i, n);
      } else {
        forall k: nat ensures LastWithAnswer(members, reps, i, k) <==> LastWithAnswer(members[..n], reps, i, k) {
          assert forall j :: 0 <= j < n ==> members[..n][j] == members[j];
        }
      }
    }
  }

  /** Member `k` is the last declared one that does not just have nothing. */
  predicate LastToSpeak(members: seq<MemberResolver>, rep: Value, k: nat) {
    && k < |members| && members[k].findEntity(rep) != Ok(None)
    && forall j :: k < j < |members| ==> members[j].findEntity(rep) == Ok(None)
  }

  /** The one-by-one lookup is that of the last declared member that has an answer or fails. */
  lemma {:induction false} FindInMembersMeaning(members: seq<MemberResolver>, rep: Value)
    ensures forall k: nat :: LastToSpeak(members, rep, k) ==> FindInMembers(members, rep) == members[k].findEntity(rep)
    ensures FindInMembers(members, rep) != Ok(None) ==> exists k: nat :: LastToSpeak(members, rep, k)
  {
    if members != [] {
      var n := |members| - 1;
      FindInMembersMeaning(members[..n], rep);
      if members[n].findEntity(rep) != Ok(None) {
        assert LastToSpeak(members, rep, n);
      } else {
        forall k: nat ensures LastToSpeak(members, rep, k) <==> LastToSpeak(members[..n], rep, k) {
          assert forall j :: 0 <= j < n ==> members[..n][j] == members[j];
        }
      }
    }
  }

  /** The emitted `find_entities` of a merged object: each member is asked for everything, and an
      earlier answer is kept.  Members return one entry per representation. */
  method MergedFindEntities(members: seq<MemberResolver>, reps: seq<Value>) returns (r: Result<Found, Error>)
    requires forall k :: 0 <= k < |members| && members[k].findEntities(reps).Ok? ==>
               |members[k].findEntities(reps).value| == |reps|
    ensures r.Ok? <==> forall k :: 0 <= k < |members| ==> members[k].findEntities(reps).Ok?
    ensures r.Ok? ==> |r.value| == |reps| && forall i :: 0 <= i < |reps| ==> r.value[i] == LastFound(members, reps, i)
    ensures r.Err? ==> exists k :: 0 <= k < |members| && members[k].findEntities(reps) == r
                         && forall j :: k < j < |members| ==> members[j].findEntities(reps).Ok?
  {
    var results := seq(|reps|, i => None);
    var k := |members|;
    assert members[..k] == members;
    while k > 0
      invariant 0 <= k <= |members| && |results| == |reps|
      invariant forall j :: k <= j < |members| ==> members[j].findEntities(reps).Ok?
      invariant (forall j :: 0 <= j < k ==> members[j].findEntities(reps).Ok?) ==>
                  forall i :: 0 <= i < |reps| ==>
                    LastFound(members, reps, i) ==
                    if results[i].Some? then results[i] else LastFound(members[..k], reps, i)
    {
      k := k - 1;
      assert members[..k + 1][..k] == members[..k];
      var mine := members[k].findEntities(reps);
      if mine.Err? {
        return mine;
      }
      results := Overlay(results, mine.value);
    }
    r := Ok(results);
  }

  function Overlay(results: Found, more: Found): Found
    requires |results| == |more|
  {
    seq(|results|, i requires 0 <= i < |results| => if results[i].Some? then results[i] else more[i])
  }

  /** If every member's batched answer is pointwise, so is the merged one: each entry is what asking
      the members one by one for that representation finds. */
  lemma {:induction false} MergedPointwise(members: seq<MemberResolver>, reps: seq<Value>, i: nat)
    requires i < |reps|
    requires forall k :: 0 <= k < |members| ==>
               && AnswersAll(members[k], reps)
               && members[k].findEntity(reps[i]) == Ok(members[k].findEntities(reps).value[i])
    ensures FindInMembers(members, reps[i]) == Ok(LastFound(members, reps, i))
  {
    if members != [] {
      MergedPointwise(members[..|members| - 1], reps, i);
    }
  }

  /** A member whose batched lookup agrees with its single lookup on these representations, failures
      included. */
  ghost predicate PointwiseOn(m: MemberResolver, reps: seq<Value>) {
    && (m.findEntities(reps).Ok? <==> forall i :: 0 <= i < |reps| ==> m.findEntity(reps[i]).Ok?)
    && (m.findEntities(reps).Ok? ==>
          && |m.findEntities(reps).value| == |reps|
          && forall i :: 0 <= i < |reps| ==> m.findEntity(reps[i]) == Ok(m.findEntities(reps).value[i]))
  }

  /** Some member fails for one of the representations. */
  ghost predicate SomeMemberFails(members: seq<MemberResolver>, reps: seq<Value>) {
    exists k, i :: 0 <= k < |members| && 0 <= i < |reps| && members[k].findEntity(reps[i]).Err?
  }

  /** A failing member is met before a later declared one has answered. */
  ghost predicate MeetsFailure(members: seq<MemberResolver>, rep: Value) {
    exists k: nat :: k < |members| && MeetsFailureAt(members, rep, k)
  }

  ghost predicate MeetsFailureAt(members: seq<MemberResolver>, rep: Value, k: nat)
    requires k < |members|
  {
    members[k].findEntity(rep).Err? && forall j :: k < j < |members| ==> members[j].findEntity(rep) == Ok(None)
  }

  lemma MeetsFailureSnoc(members: seq<MemberResolver>, m: MemberResolver, rep: Value)
    ensures MeetsFailure(members + [m], rep) <==>
            m.findEntity(rep).Err? || (m.findEntity(rep) == Ok(None) && MeetsFailure(members, rep))
  {
    var all := members + [m];
    assert all[|members|] == m;
    forall k: nat | k < |members|
      ensures MeetsFailureAt(all, rep, k) <==> m.findEntity(rep) == Ok(None) && MeetsFailureAt(members, rep, k)
    {
      assert forall j :: k < j < |members| ==> all[j] == members[j];
    }
    assert MeetsFailureAt(all, rep, |members|) <==> m.findEntity(rep).Err?;
    if m.findEntity(rep) == Ok(None) && MeetsFailure(members, rep) {
      var k: nat :| k < |members| && MeetsFailureAt(members, rep, k);
      assert MeetsFailureAt(all, rep, k);
    }
  }

  lemma {:induction false} FailsIffMet(members: seq<MemberResolver>, rep: Value)
    ensures FindInMembers(members, rep).Err? <==> MeetsFailure(members, rep)
  {
    if members != [] {
      var n := |members| - 1;
      FailsIffMet(members[..n], rep);
      assert members == members[..n] + [members[n]];
      MeetsFailureSnoc(members[..n], members[n], rep);
    }
  }

  /** The outcome of looking the representations up one by one, errors not told apart. */
  ghost predicate SameAsSingle(r: Result<Found, Error>, members: seq<MemberResolver>, reps: seq<Value>) {
    && (r.Ok? <==> forall i :: 0 <= i < |reps| ==> FindInMembers(members, reps[i]).Ok?)
    && (r.Ok? ==> |r.value| == |reps|
                  && forall i :: 0 <= i < |reps| ==> FindInMembers(members, reps[i]) == Ok(r.value[i]))
  }

  /** With pointwise members the merged batch is the one-by-one lookup, failures included, exactly when
      no member fails at all, or a failing member is met by some one-by-one lookup too. */
  method MergedAgainstSingle(members: seq<MemberResolver>, reps: seq<Value>) returns (r: Result<Found, Error>)
    requires forall k :: 0 <= k < |members| ==> PointwiseOn(members[k], reps)
    ensures SameAsSingle(r, members, reps) <==>
            !SomeMemberFails(members, reps) || exists i :: 0 <= i < |reps| && MeetsFailure(members, reps[i])
    ensures r.Ok? <==> !SomeMemberFails(members, reps)
  {
    r := MergedFindEntities(members, reps);
    forall i | 0 <= i < |reps| ensures FindInMembers(members, reps[i]).Err? <==> MeetsFailure(members, reps[i]) {
      FailsIffMet(members, reps[i]);
    }
    if SomeMemberFails(members, reps) {
      var k, i :| 0 <= k < |members| && 0 <= i < |reps| && members[k].findEntity(reps[i]).Err?;
      assert PointwiseOn(members[k], reps);
    } else {
      forall i | 0 <= i < |reps| ensures FindInMembers(members, reps[i]) == Ok(LastFound(members, reps, i)) {
        MergedPointwise(members, reps, i);
      }
    }
  }

  /** The merged batch asks every member, so it can fail where asking one by one succeeds: an earlier
      declared member fails, and the last declared one answers. */
  method MergedCanFailAlone(reps: seq<Value>, v: Value, e: Error)
    returns (r: Result<Found, Error>, members: seq<MemberResolver>)
    requires reps != []
    ensures forall k :: 0 <= k < |members| ==> PointwiseOn(members[k], reps)
    ensures r == Err(e) && forall i :: 0 <= i < |reps| ==> FindInMembers(members, reps[i]) == Ok(Some(v))
  {
    var failing := MemberResolver(_ => Err(e), _ => Err(e));
    var finding := MemberResolver((all: seq<Value>) => Ok(seq(|all|, _ => Some(v))), _ => Ok(Some(v)));
    members := [failing, finding];
    assert members[0] == failing && members[1] == finding && failing.findEntity(reps[0]).Err?;
    r := MergedFindEntities(members, reps);
    assert members[0].findEntities(reps) == Err(e);
  }

  // ----- the nested pairs -----

  /** A member returns one entry per representation. */
  ghost predicate Aligned(m: MemberResolver) {
    forall reps :: m.findEntities(reps).Ok? ==> |m.findEntities(reps).value| == |reps|
  }

  ghost predicate TreeAligned(t: TypeTree<MemberResolver>) {
    match t
    case Tail => true
    case Member(m) => Aligned(m)
    case Merged(first, second) => TreeAligned(first) && TreeAligned(second)
  }

  /** The indices without an answer, in order. */
  function Missing(results: Found): (missing: seq<nat>)
    ensures forall i: nat :: i in missing <==> i < |results| && results[i].None?
  {
    if results == [] then []
    else Missing(results[..|results| - 1]) + if results[|results| - 1].None? then [|results| - 1] else []
  }

  lemma {:induction false} MissingIncreasing(results: Found)
    ensures Increasing(Missing(results))
  {
    if results != [] {
      MissingIncreasing(results[..|results| - 1]);
      IncreasingSnoc(Missing(results[..|results| - 1]), |results| - 1);
    }
  }

  function Pick(reps: seq<Value>, indices: seq<nat>): seq<Value>
    requires forall j :: 0 <= j < |indices| ==> indices[j] < |reps|
  {
    seq(|indices|, j requires 0 <= j < |indices| => reps[indices[j]])
  }

  /** Answer `j` is written at index `indices[j]`. */
  function Scatter(results: Found, indices: seq<nat>, answers: Found): (r: Found)
    requires |answers| == |indices| && forall j :: 0 <= j < |indices| ==> indices[j] < |results|
    ensures |r| == |results|
  {
    if indices == [] then results
    else
      var n := |indices| - 1;
      Scatter(results, indices[..n], answers[..n])[indices[n] := answers[n]]
  }

  lemma {:induction false} ScatterMeaning(results: Found, indices: seq<nat>, answers: Found)
    requires |answers| == |indices| && forall j :: 0 <= j < |indices| ==> indices[j] < |results|
    requires Increasing(indices)
    ensures forall j :: 0 <= j < |indices| ==> Scatter(results, indices, answers)[indices[j]] == answers[j]
    ensures forall i :: 0 <= i < |results| && i !in indices ==> Scatter(results, indices, answers)[i] == results[i]
  {
    if indices != [] {
      var n := |indices| - 1;
      ScatterMeaning(results, indices[..n], answers[..n]);
      assert indices == indices[..n] + [indices[n]];
    }
  }

  /** `find_entities` of nested pairs: the second half is asked only for what the first half has not
      found.  The tail finds nothing. */
  ghost function Nested(t: TypeTree<MemberResolver>, reps: seq<Value>): (r: Result<Found, Error>)
    requires TreeAligned(t)
    ensures r.Ok? ==> |r.value| == |reps|
    decreases t
  {
    match t
    case Tail => Ok(Unanswered(|reps|))
    case Member(m) => m.findEntities(reps)
    case Merged(first, second) =>
      match Nested(first, reps)
      case Err(e) => Err(e)
      case Ok(results) =>
        var missing := Missing(results);
        assert forall j :: 0 <= j < |missing| ==> missing[j] in missing;
        if missing == [] then Ok(results)
        else
          match Nested(second, Pick(reps, missing))
          case Err(e) => Err(e)
          case Ok(answers) => Ok(Scatter(results, missing, answers))
  }

  method NestedFindEntities(t: TypeTree<MemberResolver>, reps: seq<Value>) returns (r: Result<Found, Error>)
    requires TreeAligned(t)
    ensures r == Nested(t, reps)
    decreases t
  {
    match t {
      case Tail => r := Ok(Unanswered(|reps|));
      case Member(m) => r := m.findEntities(reps);
      case Merged(first, second) =>
        r := NestedFindEntities(first, reps);
        if r.Err? {
          return;
        }
        var missing := CollectMissing(r.value);
        assert forall j :: 0 <= j < |missing| ==> missing[j] in missing;
        if missing != [] {
          var answers := NestedFindEntities(second, Pick(reps, missing));
          if answers.Err? {
            return answers;
          }
          var results := FillIn(r.value, missing, answers.value);
          r := Ok(results);
        }
    }
  }

  method CollectMissing(results: Found) returns (missing: seq<nat>)
    ensures missing == Missing(results)
  {
    missing := [];
    for i := 0 to |results|
      invariant missing == Missing(results[..i])
    {
      assert results[..i + 1][..i] == results[..i];
      if results[i].None? {
        missing := missing + [i];
      }
    }
    assert results[..|results|] == results;
  }

  method FillIn(results: Found, missing: seq<nat>, answers: Found) returns (filled: Found)
    requires |answers| == |missing| && forall j :: 0 <= j < |missing| ==> missing[j] < |results|
    ensures filled == Scatter(results, missing, answers)
  {
    filled := results;
    for j := 0 to |missing|
      invariant |filled| == |results| && filled == Scatter(results, missing[..j], answers[..j])
    {
      assert missing[..j + 1][..j] == missing[..j] && answers[..j + 1][..j] == answers[..j];
      filled := filled[missing[j] := answers[j]];
    }
    assert missing[..|missing|] == missing && answers[..|missing|] == answers;
  }

  ghost predicate TreePointwise(t: TypeTree<MemberResolver>) {
    match t
    case Tail => true
    case Member(m) => forall reps :: PointwiseOn(m, reps)
    case Merged(first, second) => TreePointwise(first) && TreePointwise(second)
  }

  function AskFor(rep: Value): MemberResolver -> Result<Option<Value>, Error> {
    (m: MemberResolver) => m.findEntity(rep)
  }

  /** The outcome of asking the tree for the representations one by one. */
  ghost predicate SameAsTree(r: Result<Found, Error>, t: TypeTree<MemberResolver>, reps: seq<Value>) {
    && (r.Ok? <==> forall i :: 0 <= i < |reps| ==> AskTree(t, AskFor(reps[i])).Ok?)
    && (r.Ok? ==> |r.value| == |reps| && forall i :: 0 <= i < |reps| ==> AskTree(t, AskFor(reps[i])) == Ok(r.value[i]))
  }

  lemma {:induction false} PointwiseIsAligned(t: TypeTree<MemberResolver>)
    requires TreePointwise(t)
    ensures TreeAligned(t)
  {
    match t
    case Tail =>
    case Member(m) =>
      forall reps | m.findEntities(reps).Ok? ensures |m.findEntities(reps).value| == |reps| {
        assert PointwiseOn(m, reps);
      }
    case Merged(first, second) =>
      PointwiseIsAligned(first);
      PointwiseIsAligned(second);
  }

  /** With pointwise members nested pairs are the one-by-one lookup, failures included: unlike the flat
      version they never ask a member about what a later declared one has found. */
  lemma {:induction false} NestedIsTree(t: TypeTree<MemberResolver>, reps: seq<Value>)
    requires TreePointwise(t)
    ensures TreeAligned(t) && SameAsTree(Nested(t, reps), t, reps)
    decreases t
  {
    PointwiseIsAligned(t);
    match t
    case Tail =>
    case Member(m) => assert PointwiseOn(m, reps);
    case Merged(first, second) =>
      NestedIsTree(first, reps);
      match Nested(first, reps)
      case Err(_) => FirstFails(first, second, reps);
      case Ok(results) =>
        var missing := Missing(results);
        assert forall j :: 0 <= j < |missing| ==> missing[j] in missing;
        if missing == [] {
          NothingMissing(first, second, reps, results);
        } else {
          MissingIncreasing(results);
          NestedIsTree(second, Pick(reps, missing));
          match Nested(second, Pick(reps, missing))
          case Err(e) => SecondFails(first, second, reps, results, missing, e);
          case Ok(answers) => SecondFinds(first, second, reps, results, missing, answers);
        }
  }

  lemma FirstFails(first: TypeTree<MemberResolver>, second: TypeTree<MemberResolver>, reps: seq<Value>)
    requires exists i :: 0 <= i < |reps| && AskTree(first, AskFor(reps[i])).Err?
    ensures exists i :: 0 <= i < |reps| && AskTree(Merged(first, second), AskFor(reps[i])).Err?
  {
    var i :| 0 <= i < |reps| && AskTree(first, AskFor(reps[i])).Err?;
    AskMerged(first, second, reps[i]);
    assert AskTree(Merged(first, second), AskFor(reps[i])).Err?;
  }

  lemma AskMerged(first: TypeTree<MemberResolver>, second: TypeTree<MemberResolver>, rep: Value)
    ensures AskTree(Merged(first, second), AskFor(rep)) ==
            if AskTree(first, AskFor(rep)) == Ok(None) then AskTree(second, AskFor(rep))
            else AskTree(first, AskFor(rep))
  {}

  lemma NothingMissing(first: TypeTree<MemberResolver>, second: TypeTree<MemberResolver>, reps: seq<Value>,
                       results: Found)
    requires SameAsTree(Ok(results), first, reps) && forall i :: 0 <= i < |results| ==> results[i].Some?
    ensures SameAsTree(Ok(results), Merged(first, second), reps)
  {
    forall i | 0 <= i < |reps| ensures AskTree(Merged(first, second), AskFor(reps[i])) == Ok(results[i]) {
      AskMerged(first, second, reps[i]);
    }
  }

  lemma SecondFinds(first: TypeTree<MemberResolver>, second: TypeTree<MemberResolver>, reps: seq<Value>, results: Found,
                    missing: seq<nat>, answers: Found)
    requires SameAsTree(Ok(results), first, reps) && missing == Missing(results) && Increasing(missing)
    requires forall j :: 0 <= j < |missing| ==> missing[j] < |reps|
    requires SameAsTree(Ok(answers), second, Pick(reps, missing))
    ensures SameAsTree(Ok(Scatter(results, missing, answers)), Merged(first, second), reps)
  {
    var picked := Pick(reps, missing);
    ScatterMeaning(results, missing, answers);
    forall i | 0 <= i < |reps|
      ensures AskTree(Merged(first, second), AskFor(reps[i])) == Ok(Scatter(results, missing, answers)[i])
    {
      AskMerged(first, second, reps[i]);
      if i in missing {
        var j :| 0 <= j < |missing| && missing[j] == i;
        assert picked[j] == reps[i] && AskTree(second, AskFor(picked[j])) == Ok(answers[j]);
      }
    }
  }

  lemma SecondFails(first: TypeTree<MemberResolver>, second: TypeTree<MemberResolver>, reps: seq<Value>, results: Found,
                    missing: seq<nat>, e: Error)
    requires SameAsTree(Ok(results), first, reps) && missing == Missing(results)
    requires forall j :: 0 <= j < |missing| ==> missing[j] < |reps|
    requires SameAsTree(Err(e), second, Pick(reps, missing))
    ensures SameAsTree(Err(e), Merged(first, second), reps)
  {
    var picked := Pick(reps, missing);
    var j :| 0 <= j < |picked| && AskTree(second, AskFor(picked[j])).Err?;
    assert missing[j] in missing && picked[j] == reps[missing[j]];
    AskMerged(first, second, reps[missing[j]]);
    assert AskTree(Merged(first, second), AskFor(reps[missing[j]])).Err?;
  }

  lemma {:induction false} FindIsFirst(members: seq<MemberResolver>, rep: Value)
    ensures FindInMembers(members, rep) == FirstSome(AskEach(Reverse(members), AskFor(rep)))
  {
    if members != [] {
      var n := |members| - 1;
      FindIsFirst(members[..n], rep);
      var all := AskEach(Reverse(members), AskFor(rep));
      assert all[0] == members[n].findEntity(rep) && all[1..] == AskEach(Reverse(members[..n]), AskFor(rep));
    }
  }

  lemma {:induction false} BuildPointwise(members: seq<MemberResolver>)
    requires forall k, reps :: 0 <= k < |members| ==> PointwiseOn(members[k], reps)
    ensures TreePointwise(Build(members))
    decreases |members|
  {
    if |members| > 1 {
      var mid := |members| / 2;
      BuildPointwise(members[mid..]);
      BuildPointwise(members[..mid]);
    }
  }

  /** So on the tree that the macro builds, nested pairs always agree with the one-by-one lookup, and with
      the flat version exactly where that one does. */
  lemma NestedAgainstSingle(members: seq<MemberResolver>, reps: seq<Value>)
    requires forall k, all :: 0 <= k < |members| ==> PointwiseOn(members[k], all)
    ensures TreeAligned(Build(members)) && SameAsSingle(Nested(Build(members), reps), members, reps)
  {
    BuildPointwise(members);
    NestedIsTree(Build(members), reps);
    forall i | 0 <= i < |reps| ensures AskTree(Build(members), AskFor(reps[i])) == FindInMembers(members, reps[i]) {
      FindIsFirst(members, reps[i]);
      TreeAgreesWithFlat(members, AskFor(reps[i]));
    }
  }
}
