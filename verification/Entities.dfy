/** Federated entities: the emitted `find_entities`, which batches representations of the same type. */
module Entities {
  import opened Wrappers
  import opened Document

  type Error(==, 0, !new)

  /** One `entity_batch` method: its entity type, the name of its key, how a key is parsed, and the
      method itself together with the resolution of each entity it returns. */
  datatype BatchResolver = BatchResolver(
    entityType: Name,
    keyName: Name,
    parse: Value -> Option<Value>,
    load: seq<Value> -> Result<seq<Result<Value, Error>>, Error>)

  datatype Service = Service(batches: seq<BatchResolver>, findEntity: Value -> Result<Option<Value>, Error>)

  type Found = seq<Option<Value>>

  // ----- representations -----

  function Lookup(fields: seq<Named<Value>>, name: Name): Option<Value> {
    if fields == [] then None
    else if fields[0].name == name then Some(fields[0].value)
    else Lookup(fields[1..], name)
  }

  /** The `__typename` of a representation, if it is an object with a string there. */
  function TypeNameOf(rep: Value): Option<Name> {
    match rep
    case Object(params) =>
      (match Lookup(params, "__typename")
       case Some(String(name)) => Some(name)
       case _ => None)
    case _ => None
  }

  /** The parsed key of a representation for a batch resolver. */
  function KeyOf(b: BatchResolver, rep: Value): Option<Value> {
    match rep
    case Object(params) =>
      (match Lookup(params, b.keyName)
       case Some(v) => b.parse(v)
       case None => None)
    case _ => None
  }

  // ----- what is read from a representation, by index -----

  /** The representation is an object whose first field of that name has that value. */
  ghost predicate HasField(rep: Value, name: Name, v: Value) {
    rep.Object? && exists j: nat :: IsFirst(rep.fields, name, j) && rep.fields[j].value == v
  }

  ghost predicate IsOfType(rep: Value, name: Name) {
    HasField(rep, "__typename", String(name))
  }

  /** The key field of the representation parses to this key. */
  ghost predicate HasKey(b: BatchResolver, rep: Value, key: Value) {
    exists v: Value :: HasField(rep, b.keyName, v) && b.parse(v) == Some(key)
  }

  lemma {:induction false} LookupMeaning(fields: seq<Named<Value>>, name: Name)
    ensures forall j: nat :: IsFirst(fields, name, j) ==> Lookup(fields, name) == Some(fields[j].value)
    ensures Lookup(fields, name).Some? ==> exists j: nat :: IsFirst(fields, name, j)
  {
    if fields != [] {
      var rest := fields[1..];
      LookupMeaning(rest, name);
      assert forall i :: 0 <= i < |rest| ==> rest[i] == fields[i + 1];
      if fields[0].name == name {
        assert IsFirst(fields, name, 0);
      } else {
        forall j: nat | IsFirst(fields, name, j) ensures j > 0 && IsFirst(rest, name, j - 1) {}
        if j: nat :| IsFirst(rest, name, j) {
          assert IsFirst(fields, name, j + 1);
        }
      }
    }
  }

  lemma TypeNameMeaning(rep: Value, name: Name)
    ensures TypeNameOf(rep) == Some(name) <==> IsOfType(rep, name)
  {
    if rep.Object? {
      LookupMeaning(rep.fields, "__typename");
    }
  }

  lemma KeyMeaning(b: BatchResolver, rep: Value, key: Value)
    ensures KeyOf(b, rep) == Some(key) <==> HasKey(b, rep, key)
  {
    if rep.Object? {
      LookupMeaning(rep.fields, b.keyName);
      if Lookup(rep.fields, b.keyName).Some? {
        assert HasField(rep, b.keyName, Lookup(rep.fields, b.keyName).value);
      }
    }
  }

  // ----- grouping -----

  datatype Group = Group(name: Name, indices: seq<nat>)

  function IndexOf(groups: seq<Group>, name: Name): (k: nat)
    ensures k <= |groups|
    ensures k < |groups| ==> groups[k].name == name
    ensures forall i :: 0 <= i < k ==> groups[i].name != name
  {
    if groups == [] then 0
    else if groups[0].name == name then 0
    else
      assert forall i :: 1 <= i < |groups| ==> groups[i] == groups[1..][i - 1];
      1 + IndexOf(groups[1..], name)
  }

  /** `entry(name).or_default().push(idx)` of an index map: a new name goes to the end. */
  function AddTo(groups: seq<Group>, name: Name, idx: nat): seq<Group> {
    var k := IndexOf(groups, name);
    if k < |groups| then groups[k := Group(name, groups[k].indices + [idx])]
    else groups + [Group(name, [idx])]
  }

  ghost predicate DistinctGroups(groups: seq<Group>) {
    forall i, j :: 0 <= i < j < |groups| ==> groups[i].name != groups[j].name
  }

  ghost predicate Increasing(s: seq<nat>) {
    forall i, j :: 0 <= i < j < |s| ==> s[i] < s[j]
  }

  /** A group holds exactly the indices of its type name, in order, and at least one. */
  ghost predicate GroupExact(g: Group, reps: seq<Value>, n: nat)
    requires n <= |reps|
  {
    && Increasing(g.indices) && g.indices != []
    && forall idx: nat :: idx in g.indices <==> idx < n && TypeNameOf(reps[idx]) == Some(g.name)
  }

  /** The groups and the ungrouped rest partition the indices by type name. */
  ghost predicate Partition(groups: seq<Group>, rest: seq<nat>, reps: seq<Value>, n: nat)
    requires n <= |reps|
  {
    && DistinctGroups(groups)
    && (forall i :: 0 <= i < |groups| ==> GroupExact(groups[i], reps, n))
    && (forall idx :: 0 <= idx < n && TypeNameOf(reps[idx]).Some? ==> HasGroup(groups, TypeNameOf(reps[idx]).value))
    && Increasing(rest)
    && (forall idx: nat :: idx in rest <==> idx < n && TypeNameOf(reps[idx]).None?)
  }

  ghost predicate HasGroup(groups: seq<Group>, name: Name) {
    exists i :: 0 <= i < |groups| && groups[i].name == name
  }

  lemma IncreasingSnoc(s: seq<nat>, x: nat)
    requires Increasing(s) && forall y :: y in s ==> y < x
    ensures Increasing(s + [x])
  {
    forall i, j | 0 <= i < j < |s + [x]| ensures (s + [x])[i] < (s + [x])[j] {
      assert i < |s| && s[i] in s;
    }
  }

  /** One more index joins its group, or starts it. */
  lemma GroupOneMore(g: Group, reps: seq<Value>, n: nat)
    requires n < |reps| && GroupExact(g, reps, n)
    ensures TypeNameOf(reps[n]) != Some(g.name) ==> GroupExact(g, reps, n + 1)
    ensures TypeNameOf(reps[n]) == Some(g.name) ==> GroupExact(Group(g.name, g.indices + [n]), reps, n + 1)
  {
    IncreasingSnoc(g.indices, n);
  }

  lemma PartitionOneMore(groups: seq<Group>, rest: seq<nat>, reps: seq<Value>, n: nat)
    requires n < |reps| && Partition(groups, rest, reps, n) && TypeNameOf(reps[n]).Some?
    ensures Partition(AddTo(groups, TypeNameOf(reps[n]).value, n), rest, reps, n + 1)
  {
    var name := TypeNameOf(reps[n]).value;
    var groups', k := AddTo(groups, name, n), IndexOf(groups, name);
    forall i | 0 <= i < |groups'| ensures GroupExact(groups'[i], reps, n + 1) {
      if i < |groups| {
        assert GroupExact(groups[i], reps, n);
        GroupOneMore(groups[i], reps, n);
      } else {
        forall idx | 0 <= idx < n ensures TypeNameOf(reps[idx]) != Some(name) {
          assert TypeNameOf(reps[idx]).Some? ==> HasGroup(groups, TypeNameOf(reps[idx]).value);
        }
      }
    }
    forall idx | 0 <= idx < n + 1 && TypeNameOf(reps[idx]).Some?
      ensures HasGroup(groups', TypeNameOf(reps[idx]).value)
    {
      if idx < n {
        assert HasGroup(groups, TypeNameOf(reps[idx]).value);
        var i :| 0 <= i < |groups| && groups[i].name == TypeNameOf(reps[idx]).value;
        assert groups'[i].name == TypeNameOf(reps[idx]).value;
      } else {
        assert groups'[k].name == name;
      }
    }
  }

  lemma PartitionRestOneMore(groups: seq<Group>, rest: seq<nat>, reps: seq<Value>, n: nat)
    requires n < |reps| && Partition(groups, rest, reps, n) && TypeNameOf(reps[n]).None?
    ensures Partition(groups, rest + [n], reps, n + 1)
  {
    IncreasingSnoc(rest, n);
    forall i | 0 <= i < |groups| ensures GroupExact(groups[i], reps, n + 1) {
      assert GroupExact(groups[i], reps, n);
      GroupOneMore(groups[i], reps, n);
    }
  }

  method GroupByType(reps: seq<Value>) returns (groups: seq<Group>, rest: seq<nat>)
    ensures Partition(groups, rest, reps, |reps|)
    ensures forall i, idx: nat :: 0 <= i < |groups| && idx < |reps| ==>
              (idx in groups[i].indices <==> IsOfType(reps[idx], groups[i].name))
    ensures forall idx: nat :: idx < |reps| ==> (idx in rest <==> forall name :: !IsOfType(reps[idx], name))
  {
    groups, rest := [], [];
    for idx := 0 to |reps|
      invariant Partition(groups, rest, reps, idx)
    {
      match TypeNameOf(reps[idx]) {
        case Some(name) =>
          PartitionOneMore(groups, rest, reps, idx);
          groups := AddTo(groups, name, idx);
        case None =>
          PartitionRestOneMore(groups, rest, reps, idx);
          rest := rest + [idx];
      }
    }
    forall i, idx: nat | 0 <= i < |groups| && idx < |reps|
      ensures idx in groups[i].indices <==> IsOfType(reps[idx], groups[i].name)
    {
      assert GroupExact(groups[i], reps, |reps|);
      TypeNameMeaning(reps[idx], groups[i].name);
    }
    forall idx: nat | idx < |reps| ensures idx in rest <==> forall name :: !IsOfType(reps[idx], name) {
      forall name ensures TypeNameOf(reps[idx]) == Some(name) <==> IsOfType(reps[idx], name) {
        TypeNameMeaning(reps[idx], name);
      }
      assert TypeNameOf(reps[idx]).Some? ==> IsOfType(reps[idx], TypeNameOf(reps[idx]).value);
    }
  }

  // ----- one batch -----

  /** Whether a batch is asked about an index: it has no answer yet, and its key can be parsed. */
  predicate IsAsked(b: BatchResolver, reps: seq<Value>, results: Found, idx: nat)
    requires |results| == |reps|
  {
    idx < |reps| && results[idx].None? && KeyOf(b, reps[idx]).Some?
  }

  /** The indices a batch is asked about, in order. */
  function Asked(b: BatchResolver, reps: seq<Value>, indices: seq<nat>, results: Found): (asked: seq<nat>)
    requires |results| == |reps|
    ensures forall idx :: idx in asked <==> idx in indices && IsAsked(b, reps, results, idx)
  {
    if indices == [] then []
    else
      var n := |indices| - 1;
      assert indices == indices[..n] + [indices[n]];
      Asked(b, reps, indices[..n], results) + if IsAsked(b, reps, results, indices[n]) then [indices[n]] else []
  }

  lemma {:induction false} AskedIncreasing(b: BatchResolver, reps: seq<Value>, indices: seq<nat>, results: Found)
    requires |results| == |reps| && Increasing(indices)
    ensures Increasing(Asked(b, reps, indices, results))
  {
    if indices != [] {
      var n := |indices| - 1;
      AskedIncreasing(b, reps, indices[..n], results);
      IncreasingSnoc(Asked(b, reps, indices[..n], results), indices[n]);
    }
  }

  predicate HaveKeys(b: BatchResolver, reps: seq<Value>, idxs: seq<nat>) {
    forall j :: 0 <= j < |idxs| ==> idxs[j] < |reps| && KeyOf(b, reps[idxs[j]]).Some?
  }

  /** The keys at these indices, side by side with them. */
  function KeysAt(b: BatchResolver, reps: seq<Value>, idxs: seq<nat>): seq<Value>
    requires HaveKeys(b, reps, idxs)
  {
    seq(|idxs|, j requires 0 <= j < |idxs| => KeyOf(b, reps[idxs[j]]).value)
  }

  lemma KeysNext(b: BatchResolver, reps: seq<Value>, idxs: seq<nat>, idx: nat)
    requires HaveKeys(b, reps, idxs) && idx < |reps| && KeyOf(b, reps[idx]).Some?
    ensures HaveKeys(b, reps, idxs + [idx])
    ensures KeysAt(b, reps, idxs + [idx]) == KeysAt(b, reps, idxs) + [KeyOf(b, reps[idx]).value]
  {}

  /** The first loop of a batch fragment: the unanswered indices whose key can be parsed, in order, and
      beside each its key. */
  method CollectKeys(b: BatchResolver, reps: seq<Value>, indices: seq<nat>, results: Found)
    returns (keys: seq<Value>, keyIndices: seq<nat>)
    requires |results| == |reps| && forall i :: 0 <= i < |indices| ==> indices[i] < |reps|
    ensures keyIndices == Asked(b, reps, indices, results) && HaveKeys(b, reps, keyIndices)
    ensures keys == KeysAt(b, reps, keyIndices)
    ensures Increasing(indices) ==> Increasing(keyIndices)
    ensures |keys| == |keyIndices| && forall j :: 0 <= j < |keys| ==> HasKey(b, reps[keyIndices[j]], keys[j])
    ensures forall idx: nat :: idx in keyIndices <==>
              idx in indices && results[idx].None? && exists key :: HasKey(b, reps[idx], key)
  {
    keys, keyIndices := [], [];
    for i := 0 to |indices|
      invariant keyIndices == Asked(b, reps, indices[..i], results) && HaveKeys(b, reps, keyIndices)
      invariant keys == KeysAt(b, reps, keyIndices)
    {
      assert indices[..i + 1][..i] == indices[..i];
      var idx := indices[i];
      if results[idx].None? {
        var key := KeyOf(b, reps[idx]);
        if key.Some? {
          KeysNext(b, reps, keyIndices, idx);
          keyIndices := keyIndices + [idx];
          keys := keys + [key.value];
        }
      }
    }
    assert indices[..|indices|] == indices;
    if Increasing(indices) {
      AskedIncreasing(b, reps, indices, results);
    }
    AskedMeaning(b, reps, indices, results);
  }

  /** Which indices are asked, and with which keys, read off the representations. */
  lemma AskedMeaning(b: BatchResolver, reps: seq<Value>, indices: seq<nat>, results: Found)
    requires |results| == |reps| && forall i :: 0 <= i < |indices| ==> indices[i] < |reps|
    ensures var asked := Asked(b, reps, indices, results);
            && HaveKeys(b, reps, asked)
            && (forall j :: 0 <= j < |asked| ==> HasKey(b, reps[asked[j]], KeysAt(b, reps, asked)[j]))
            && forall idx: nat :: idx in asked <==>
                 idx in indices && results[idx].None? && exists key :: HasKey(b, reps[idx], key)
  {
    var asked := Asked(b, reps, indices, results);
    assert forall j :: 0 <= j < |asked| ==> asked[j] in asked;
    forall j | 0 <= j < |asked| ensures HasKey(b, reps[asked[j]], KeysAt(b, reps, asked)[j]) {
      KeyMeaning(b, reps[asked[j]], KeysAt(b, reps, asked)[j]);
    }
    forall idx: nat | idx in indices ensures KeyOf(b, reps[idx]).Some? <==> exists key :: HasKey(b, reps[idx], key) {
      forall key ensures KeyOf(b, reps[idx]) == Some(key) <==> HasKey(b, reps[idx], key) {
        KeyMeaning(b, reps[idx], key);
      }
      assert KeyOf(b, reps[idx]).Some? ==> HasKey(b, reps[idx], KeyOf(b, reps[idx]).value);
    }
  }

  /** How many answers are looked at: a short answer list leaves the remaining indices unanswered, and
      surplus answers are ignored. */
  function Reached(asked: seq<nat>, answers: seq<Result<Value, Error>>): (n: nat)
    ensures n <= |asked| && n <= |answers| && (n == |asked| || n == |answers|)
  {
    if |asked| < |answers| then |asked| else |answers|
  }

  /** Answer `j` is written at the index that key `j` came from; the first error ends it. */
  function Land(results: Found, asked: seq<nat>, answers: seq<Result<Value, Error>>, n: nat): Result<Found, Error>
    requires n <= |asked| && n <= |answers|
    requires forall j :: 0 <= j < |asked| ==> asked[j] < |results|
  {
    if n == 0 then Ok(results)
    else
      match Land(results, asked, answers, n - 1)
      case Err(e) => Err(e)
      case Ok(landed) =>
        match answers[n - 1]
        case Err(e) => Err(e)
        case Ok(v) => if asked[n - 1] < |landed| then Ok(landed[asked[n - 1] := Some(v)]) else Ok(landed)
  }

  /** Every answer looked at is at its own index, and no other index has changed. */
  ghost predicate Landed(before: Found, after: Found, asked: seq<nat>, answers: seq<Result<Value, Error>>, n: nat)
    requires n <= |asked| && n <= |answers|
  {
    && |after| == |before|
    && (forall j :: 0 <= j < n ==> asked[j] < |after| && answers[j].Ok? && after[asked[j]] == Some(answers[j].value))
    && (forall i: nat :: i < |before| && i !in asked[..n] ==> after[i] == before[i])
  }

  lemma {:induction false} LandMeaning(results: Found, asked: seq<nat>, answers: seq<Result<Value, Error>>, n: nat)
    requires n <= |asked| && n <= |answers| && Increasing(asked)
    requires forall j :: 0 <= j < |asked| ==> asked[j] < |results|
    ensures var r := Land(results, asked, answers, n);
            && (r.Ok? <==> forall j :: 0 <= j < n ==> answers[j].Ok?)
            && (r.Ok? ==> Landed(results, r.value, asked, answers, n))
  {
    if n > 0 {
      LandMeaning(results, asked, answers, n - 1);
      assert asked[..n] == asked[..n - 1] + [asked[n - 1]];
    }
  }

  /** What one batch fragment makes of the results. */
  function BatchOutcome(b: BatchResolver, reps: seq<Value>, indices: seq<nat>, results: Found): Result<Found, Error>
    requires |results| == |reps|
  {
    var asked := Asked(b, reps, indices, results);
    assert forall j :: 0 <= j < |asked| ==> asked[j] in asked;
    if asked == [] then Ok(results)
    else
      match b.load(KeysAt(b, reps, asked))
      case Err(e) => Err(e)
      case Ok(answers) => Land(results, asked, answers, Reached(asked, answers))
  }

  /** The one call a batch fragment makes: it does not fail, and neither does an answer it looks at. */
  ghost predicate CallSucceeds(b: BatchResolver, reps: seq<Value>, asked: seq<nat>)
    requires HaveKeys(b, reps, asked)
  {
    var loaded := b.load(KeysAt(b, reps, asked));
    loaded.Ok? && forall j :: 0 <= j < Reached(asked, loaded.value) ==> loaded.value[j].Ok?
  }

  /** A batch fragment fails exactly when the call it sends does.  Otherwise each answer lands at the
      index its key came from, and everything else stays. */
  lemma BatchOutcomeMeaning(b: BatchResolver, reps: seq<Value>, indices: seq<nat>, results: Found)
    requires |results| == |reps| && Increasing(indices)
    ensures var asked, r := Asked(b, reps, indices, results), BatchOutcome(b, reps, indices, results);
            && HaveKeys(b, reps, asked) && Increasing(asked)
            && (r.Ok? <==> asked == [] || CallSucceeds(b, reps, asked))
            && (asked == [] ==> r.value == results)
            && (r.Ok? && asked != [] ==>
                  var answers := b.load(KeysAt(b, reps, asked)).value;
                  Landed(results, r.value, asked, answers, Reached(asked, answers)))
  {
    var asked := Asked(b, reps, indices, results);
    AskedIncreasing(b, reps, indices, results);
    assert forall j :: 0 <= j < |asked| ==> asked[j] in asked;
    if asked != [] {
      var loaded := b.load(KeysAt(b, reps, asked));
      if loaded.Ok? {
        LandMeaning(results, asked, loaded.value, Reached(asked, loaded.value));
      }
    }
  }

  /** A whole batch fragment. */
  method RunBatch(b: BatchResolver, reps: seq<Value>, indices: seq<nat>, results: Found)
    returns (r: Result<Found, Error>, ghost keyIndices: seq<nat>)
    requires |results| == |reps| && Increasing(indices)
    requires forall i :: 0 <= i < |indices| ==> indices[i] < |reps|
    ensures r == BatchOutcome(b, reps, indices, results)
    ensures keyIndices == Asked(b, reps, indices, results) && HaveKeys(b, reps, keyIndices)
    ensures r.Err? <==> keyIndices != [] && !CallSucceeds(b, reps, keyIndices)
    ensures keyIndices == [] ==> r == Ok(results)
    ensures r.Ok? && keyIndices != [] ==>
              var answers := b.load(KeysAt(b, reps, keyIndices)).value;
              Landed(results, r.value, keyIndices, answers, Reached(keyIndices, answers))
  {
    BatchOutcomeMeaning(b, reps, indices, results);
    var keys, idxs := CollectKeys(b, reps, indices, results);
    keyIndices := idxs;
    if keys == [] {
      return Ok(results), keyIndices;
    }
    var loaded := b.load(keys);
    if loaded.Err? {
      return Err(loaded.error), keyIndices;
    }
    r := LandAnswers(results, idxs, loaded.value);
  }

  /** Its second loop. */
  method LandAnswers(results: Found, keyIndices: seq<nat>, answers: seq<Result<Value, Error>>)
    returns (r: Result<Found, Error>)
    requires Increasing(keyIndices) && forall j :: 0 <= j < |keyIndices| ==> keyIndices[j] < |results|
    ensures r == Land(results, keyIndices, answers, Reached(keyIndices, answers))
  {
    var results' := results;
    var n := if |keyIndices| < |answers| then |keyIndices| else |answers|;
    for j := 0 to n
      invariant |results'| == |results| && Land(results, keyIndices, answers, j) == Ok(results')
    {
      match answers[j] {
        case Err(e) =>
          LandErrorKept(results, keyIndices, answers, j + 1, n);
          return Err(e);
        case Ok(v) => results' := results'[keyIndices[j] := Some(v)];
      }
    }
    r := Ok(results');
  }

  lemma {:induction false} LandErrorKept(results: Found, asked: seq<nat>, answers: seq<Result<Value, Error>>,
                                         m: nat, n: nat)
    requires m <= n <= |asked| && n <= |answers| && forall j :: 0 <= j < |asked| ==> asked[j] < |results|
    requires Land(results, asked, answers, m).Err?
    ensures Land(results, asked, answers, n) == Land(results, asked, answers, m)
  {
    if m < n {
      LandErrorKept(results, asked, answers, m, n - 1);
    }
  }

  // ----- one group -----

  /** The indices below `n` of the representations of one type, in order. */
  function IndicesOf(reps: seq<Value>, n: nat, name: Name): (indices: seq<nat>)
    requires n <= |reps|
    ensures forall idx: nat :: idx in indices <==> idx < n && TypeNameOf(reps[idx]) == Some(name)
  {
    if n == 0 then []
    else IndicesOf(reps, n - 1, name) + if TypeNameOf(reps[n - 1]) == Some(name) then [n - 1] else []
  }

  lemma {:induction false} IndicesIncreasing(reps: seq<Value>, n: nat, name: Name)
    requires n <= |reps|
    ensures Increasing(IndicesOf(reps, n, name))
  {
    if n > 0 {
      IndicesIncreasing(reps, n - 1, name);
      IncreasingSnoc(IndicesOf(reps, n - 1, name), n - 1);
    }
  }

  /** The group of a name, read off the representations. */
  lemma IndicesMeaning(reps: seq<Value>, name: Name)
    ensures forall idx: nat :: idx in IndicesOf(reps, |reps|, name) <==> idx < |reps| && IsOfType(reps[idx], name)
  {
    forall idx: nat | idx < |reps| ensures TypeNameOf(reps[idx]) == Some(name) <==> IsOfType(reps[idx], name) {
      TypeNameMeaning(reps[idx], name);
    }
  }

  function Unanswered(n: nat): (results: Found)
    ensures |results| == n && forall i :: 0 <= i < n ==> results[i] == None
  {
    seq(n, i => None)
  }

  /** What the first `k` batch methods answer for the representations of one type: each method of that
      type, in declaration order, is sent the keys that are still unanswered. */
  function GroupAnswers(svc: Service, reps: seq<Value>, name: Name, k: nat): (r: Result<Found, Error>)
    requires k <= |svc.batches|
    ensures r.Ok? ==> |r.value| == |reps|
  {
    if k == 0 then Ok(Unanswered(|reps|))
    else
      match GroupAnswers(svc, reps, name, k - 1)
      case Err(e) => Err(e)
      case Ok(before) =>
        if svc.batches[k - 1].entityType == name then
          var indices := IndicesOf(reps, |reps|, name);
          IndicesIncreasing(reps, |reps|, name);
          BatchOutcomeMeaning(svc.batches[k - 1], reps, indices, before);
          BatchOutcome(svc.batches[k - 1], reps, indices, before)
        else Ok(before)
  }

  function AllBatches(svc: Service, reps: seq<Value>, name: Name): (r: Result<Found, Error>)
    ensures r.Ok? ==> |r.value| == |reps|
  {
    GroupAnswers(svc, reps, name, |svc.batches|)
  }

  /** The batched answer for one representation, if the batch methods of its type have one. */
  function BatchAnswer(svc: Service, reps: seq<Value>, i: nat): Option<Value>
    requires i < |reps|
  {
    match TypeNameOf(reps[i])
    case None => None
    case Some(name) =>
      match AllBatches(svc, reps, name)
      case Err(_) => None
      case Ok(found) => found[i]
  }

  function Single(svc: Service, rep: Value): Option<Value> {
    match svc.findEntity(rep)
    case Ok(v) => v
    case Err(_) => None
  }

  /** A batched answer comes first; exactly the rest is looked up one by one. */
  function Answer(svc: Service, reps: seq<Value>, i: nat): Option<Value>
    requires i < |reps|
  {
    if BatchAnswer(svc, reps, i).Some? then BatchAnswer(svc, reps, i) else Single(svc, reps[i])
  }

  /** Nothing fails that is needed for this representation: not a call made for its type, and not its
      single lookup if it comes to that. */
  ghost predicate CanAnswer(svc: Service, reps: seq<Value>, i: nat)
    requires i < |reps|
  {
    && (TypeNameOf(reps[i]).Some? ==> AllBatches(svc, reps, TypeNameOf(reps[i]).value).Ok?)
    && (BatchAnswer(svc, reps, i).None? ==> svc.findEntity(reps[i]).Ok?)
  }

  lemma {:induction false} GroupErrorKept(svc: Service, reps: seq<Value>, name: Name, m: nat, k: nat)
    requires m <= k <= |svc.batches| && GroupAnswers(svc, reps, name, m).Err?
    ensures GroupAnswers(svc, reps, name, k).Err?
  {
    if m < k {
      GroupErrorKept(svc, reps, name, m, k - 1);
    }
  }

  ghost predicate SameAt(indices: seq<nat>, x: Found, y: Found)
    requires |x| == |y|
  {
    forall i :: i in indices && i < |x| ==> x[i] == y[i]
  }

  lemma {:induction false} AskedLocal(b: BatchResolver, reps: seq<Value>, indices: seq<nat>, x: Found, y: Found)
    requires |x| == |y| == |reps| && SameAt(indices, x, y)
    ensures Asked(b, reps, indices, x) == Asked(b, reps, indices, y)
  {
    if indices != [] {
      var n := |indices| - 1;
      assert indices[n] in indices && forall i :: i in indices[..n] ==> i in indices;
      AskedLocal(b, reps, indices[..n], x, y);
    }
  }

  /** A batch fragment looks at the results of its own indices only, and changes nothing else. */
  lemma BatchOutcomeLocal(b: BatchResolver, reps: seq<Value>, indices: seq<nat>, x: Found, y: Found)
    requires |x| == |y| == |reps| && SameAt(indices, x, y) && Increasing(indices)
    ensures var r, t := BatchOutcome(b, reps, indices, x), BatchOutcome(b, reps, indices, y);
            && (r.Ok? <==> t.Ok?)
            && (r.Ok? ==> |r.value| == |t.value| == |reps| && SameAt(indices, r.value, t.value)
                          && forall i: nat :: i < |reps| && i !in indices ==> r.value[i] == x[i])
  {
    AskedLocal(b, reps, indices, x, y);
    BatchOutcomeMeaning(b, reps, indices, x);
    BatchOutcomeMeaning(b, reps, indices, y);
    var asked := Asked(b, reps, indices, x);
    if asked != [] && CallSucceeds(b, reps, asked) {
      var answers := b.load(KeysAt(b, reps, asked)).value;
      LandedLocal(x, y, BatchOutcome(b, reps, indices, x).value, BatchOutcome(b, reps, indices, y).value,
                  indices, asked, answers, Reached(asked, answers));
    }
  }

  lemma LandedLocal(x: Found, y: Found, x': Found, y': Found, indices: seq<nat>, asked: seq<nat>,
                    answers: seq<Result<Value, Error>>, n: nat)
    requires |x| == |y| && SameAt(indices, x, y) && forall i :: i in asked ==> i in indices
    requires n <= |asked| && n <= |answers|
    requires Landed(x, x', asked, answers, n) && Landed(y, y', asked, answers, n)
    ensures SameAt(indices, x', y') && forall i: nat :: i < |x| && i !in indices ==> x'[i] == x[i]
  {
    forall i | i in indices && i < |x| ensures x'[i] == y'[i] {
      if i in asked[..n] {
        var j :| 0 <= j < n && asked[..n][j] == i;
        assert asked[j] == i;
      }
    }
    assert forall i :: i in asked[..n] ==> i in asked;
  }

  // ----- falling back -----

  method FallBack(svc: Service, reps: seq<Value>, indices: seq<nat>, results: Found) returns (r: Result<Found, Error>)
    requires |results| == |reps| && forall i :: 0 <= i < |indices| ==> indices[i] < |reps|
    ensures r.Ok? <==> forall i :: i in indices && results[i].None? ==> svc.findEntity(reps[i]).Ok?
    ensures r.Ok? ==> |r.value| == |reps| && forall i :: 0 <= i < |reps| ==>
              r.value[i] == if i in indices && results[i].None? then Single(svc, reps[i]) else results[i]
  {
    var results' := results;
    for k := 0 to |indices|
      invariant |results'| == |reps|
      invariant forall i :: 0 <= i < |reps| ==>
                  results'[i] == if i in indices[..k] && results[i].None? then Single(svc, reps[i]) else results[i]
      invariant forall i :: i in indices[..k] && results[i].None? ==> svc.findEntity(reps[i]).Ok?
    {
      var idx := indices[k];
      assert indices[..k + 1] == indices[..k] + [idx];
      if results'[idx].None? {
        var found := svc.findEntity(reps[idx]);
        if found.Err? {
          assert idx in indices && results[idx].None?;
          return Err(found.error);
        }
        results' := results'[idx := found.value];
      }
    }
    assert indices[..|indices|] == indices;
    r := Ok(results');
  }

  /** The batch fragments of one group.  They see the results of the whole request, but work as if their
      type were alone. */
  method BatchGroup(svc: Service, reps: seq<Value>, g: Group, results: Found) returns (r: Result<Found, Error>)
    requires |results| == |reps| && g.indices == IndicesOf(reps, |reps|, g.name)
    requires forall i :: i in g.indices ==> results[i].None?
    ensures r.Ok? <==> AllBatches(svc, reps, g.name).Ok?
    ensures r.Ok? ==> |r.value| == |reps| && SameAt(g.indices, r.value, AllBatches(svc, reps, g.name).value)
    ensures r.Ok? ==> forall i :: 0 <= i < |reps| && i !in g.indices ==> r.value[i] == results[i]
  {
    var results' := results;
    TracksStart(svc, reps, g, results);
    for k := 0 to |svc.batches|
      invariant Tracks(svc, reps, g, k, results, results')
    {
      TracksNext(svc, reps, g, k, results, results');
      var batched := BatchFragment(svc.batches[k], reps, g, results');
      if batched.Err? {
        GroupErrorKept(svc, reps, g.name, k + 1, |svc.batches|);
        return batched;
      }
      results' := batched.value;
    }
    r := Ok(results');
  }

  function FragmentOutcome(b: BatchResolver, reps: seq<Value>, g: Group, results: Found): Result<Found, Error>
    requires |results| == |reps|
  {
    if b.entityType == g.name then BatchOutcome(b, reps, g.indices, results) else Ok(results)
  }

  /** The fragment of one batch method, which runs for its own type only. */
  method BatchFragment(b: BatchResolver, reps: seq<Value>, g: Group, results: Found) returns (r: Result<Found, Error>)
    requires |results| == |reps| && g.indices == IndicesOf(reps, |reps|, g.name)
    ensures r == FragmentOutcome(b, reps, g, results)
  {
    IndicesIncreasing(reps, |reps|, g.name);
    assert forall i :: 0 <= i < |g.indices| ==> g.indices[i] in g.indices;
    if g.name != b.entityType {
      return Ok(results);
    }
    ghost var keyIndices;
    r, keyIndices := RunBatch(b, reps, g.indices, results);
  }

  /** Within the group the results are those of the first `k` batch methods, elsewhere as before. */
  ghost predicate Tracks(svc: Service, reps: seq<Value>, g: Group, k: nat, before: Found, results: Found)
    requires k <= |svc.batches| && |before| == |reps|
  {
    && |results| == |reps| && GroupAnswers(svc, reps, g.name, k).Ok?
    && SameAt(g.indices, results, GroupAnswers(svc, reps, g.name, k).value)
    && forall i: nat :: i < |reps| && i !in g.indices ==> results[i] == before[i]
  }

  lemma TracksStart(svc: Service, reps: seq<Value>, g: Group, results: Found)
    requires |results| == |reps| && forall i :: i in g.indices && i < |reps| ==> results[i].None?
    ensures Tracks(svc, reps, g, 0, results, results)
  {}

  lemma TracksNext(svc: Service, reps: seq<Value>, g: Group, k: nat, before: Found, results: Found)
    requires k < |svc.batches| && |before| == |reps| && g.indices == IndicesOf(reps, |reps|, g.name)
    requires Tracks(svc, reps, g, k, before, results)
    ensures var r := FragmentOutcome(svc.batches[k], reps, g, results);
            if r.Ok? then Tracks(svc, reps, g, k + 1, before, r.value)
            else GroupAnswers(svc, reps, g.name, k + 1).Err?
  {
    IndicesIncreasing(reps, |reps|, g.name);
    if svc.batches[k].entityType == g.name {
      BatchOutcomeLocal(svc.batches[k], reps, g.indices, results, GroupAnswers(svc, reps, g.name, k).value);
    }
  }

  /** The body of the loop over groups: every batch fragment of that type, then the fallback. */
  method ResolveGroup(svc: Service, reps: seq<Value>, g: Group, results: Found) returns (r: Result<Found, Error>)
    requires |results| == |reps| && g.indices == IndicesOf(reps, |reps|, g.name) && g.indices != []
    requires forall i :: i in g.indices ==> results[i].None?
    ensures r.Ok? ==> |r.value| == |reps| && forall i :: 0 <= i < |reps| ==>
              r.value[i] == if i in g.indices then Answer(svc, reps, i) else results[i]
    ensures r.Ok? <==> forall i :: i in g.indices ==> CanAnswer(svc, reps, i)
  {
    r := BatchGroup(svc, reps, g, results);
    if r.Err? {
      assert g.indices[0] in g.indices && !CanAnswer(svc, reps, g.indices[0]);
      return;
    }
    assert forall i :: 0 <= i < |g.indices| ==> g.indices[i] in g.indices;
    forall i | i in g.indices ensures BatchAnswer(svc, reps, i) == r.value[i] {}
    r := FallBack(svc, reps, g.indices, r.value);
  }

  /** The emitted `find_entities`: one entry for each representation, the batched answer if there is one
      and the single answer otherwise; it fails exactly when something needed for one of them does. */
  method FindEntities(svc: Service, reps: seq<Value>) returns (r: Result<Found, Error>)
    ensures r.Ok? <==> forall i :: 0 <= i < |reps| ==> CanAnswer(svc, reps, i)
    ensures r.Ok? ==> |r.value| == |reps| && forall i :: 0 <= i < |reps| ==> r.value[i] == Answer(svc, reps, i)
  {
    if svc.batches == [] {
      r := FindEach(svc, reps);
      return;
    }
    var results := Unanswered(|reps|);
    var groups, rest := GroupByType(reps);
    for k := 0 to |groups|
      invariant |results| == |reps|
      invariant forall i :: 0 <= i < |reps| ==>
                  results[i] == if InGroups(groups[..k], reps[i]) then Answer(svc, reps, i) else None
      invariant forall i :: 0 <= i < |reps| && InGroups(groups[..k], reps[i]) ==> CanAnswer(svc, reps, i)
    {
      GroupIsIndices(groups[k], reps);
      GroupAfter(groups, k, reps);
      var resolved := ResolveGroup(svc, reps, groups[k], results);
      if resolved.Err? {
        return resolved;
      }
      results := resolved.value;
    }
    assert groups[..|groups|] == groups;
    forall i | 0 <= i < |reps| ensures i in rest <==> !InGroups(groups, reps[i]) {
      assert TypeNameOf(reps[i]).Some? ==> HasGroup(groups, TypeNameOf(reps[i]).value);
    }
    assert forall i :: 0 <= i < |rest| ==> rest[i] in rest;
    r := FallBack(svc, reps, rest, results);
  }

  /** Without batch methods every representation is looked up on its own. */
  method FindEach(svc: Service, reps: seq<Value>) returns (r: Result<Found, Error>)
    requires svc.batches == []
    ensures r.Ok? <==> forall i :: 0 <= i < |reps| ==> CanAnswer(svc, reps, i)
    ensures r.Ok? ==> |r.value| == |reps| && forall i :: 0 <= i < |reps| ==> r.value[i] == Answer(svc, reps, i)
  {
    var found := [];
    for i := 0 to |reps|
      invariant |found| == i
      invariant forall j :: 0 <= j < i ==> CanAnswer(svc, reps, j) && found[j] == Answer(svc, reps, j)
    {
      assert BatchAnswer(svc, reps, i).None?;
      var single := svc.findEntity(reps[i]);
      if single.Err? {
        assert !CanAnswer(svc, reps, i);
        return Err(single.error);
      }
      found := found + [single.value];
    }
    r := Ok(found);
  }

  ghost predicate InGroups(groups: seq<Group>, rep: Value) {
    TypeNameOf(rep).Some? && HasGroup(groups, TypeNameOf(rep).value)
  }

  lemma GroupAfter(groups: seq<Group>, k: nat, reps: seq<Value>)
    requires k < |groups| && DistinctGroups(groups) && GroupExact(groups[k], reps, |reps|)
    ensures forall i :: 0 <= i < |reps| ==>
              (InGroups(groups[..k + 1], reps[i]) <==> InGroups(groups[..k], reps[i]) || i in groups[k].indices)
    ensures forall i :: i in groups[k].indices ==> i < |reps| && !InGroups(groups[..k], reps[i])
  {
    forall i | 0 <= i < |reps| && TypeNameOf(reps[i]).Some?
      ensures InGroups(groups[..k + 1], reps[i]) <==> InGroups(groups[..k], reps[i]) || i in groups[k].indices
    {
      HasGroupSnoc(groups[..k], groups[k], TypeNameOf(reps[i]).value);
      assert groups[..k + 1] == groups[..k] + [groups[k]];
    }
  }

  lemma HasGroupSnoc(groups: seq<Group>, g: Group, name: Name)
    ensures HasGroup(groups + [g], name) <==> HasGroup(groups, name) || g.name == name
  {
    assert (groups + [g])[|groups|] == g;
    if HasGroup(groups, name) {
      var i :| 0 <= i < |groups| && groups[i].name == name;
      assert (groups + [g])[i].name == name;
    }
  }

  lemma LastIsGreatest(s: seq<nat>)
    requires Increasing(s) && s != []
    ensures var m := |s| - 1;
            && Increasing(s[..m]) && s[m] in s
            && forall x :: (x in s[..m] <==> x in s && x != s[m]) && (x in s ==> x <= s[m])
  {
    var m := |s| - 1;
    assert s == s[..m] + [s[m]];
  }

  lemma {:induction false} SameIncreasing(s: seq<nat>, t: seq<nat>)
    requires Increasing(s) && Increasing(t) && forall x :: x in s <==> x in t
    ensures s == t
  {
    if s != [] {
      LastIsGreatest(s);
    }
    if t != [] {
      LastIsGreatest(t);
    }
    if s != [] && t != [] {
      var m, n := |s| - 1, |t| - 1;
      assert s[m] == t[n];
      SameIncreasing(s[..m], t[..n]);
      assert s == s[..m] + [s[m]] && t == t[..n] + [t[n]];
    }
  }

  lemma GroupIsIndices(g: Group, reps: seq<Value>)
    requires GroupExact(g, reps, |reps|)
    ensures g.indices == IndicesOf(reps, |reps|, g.name)
  {
    IndicesIncreasing(reps, |reps|, g.name);
    SameIncreasing(g.indices, IndicesOf(reps, |reps|, g.name));
  }

  // ----- where a batched answer comes from -----

  /** Batch method `k`, in the one call it is sent for the representations of this type, answers `v` to the
      key of index `i`. */
  ghost predicate Answers(svc: Service, reps: seq<Value>, name: Name, k: nat, i: nat, v: Value)
    requires k < |svc.batches|
  {
    && svc.batches[k].entityType == name && GroupAnswers(svc, reps, name, k).Ok?
    && var asked := Asked(svc.batches[k], reps, IndicesOf(reps, |reps|, name), GroupAnswers(svc, reps, name, k).value);
       && HaveKeys(svc.batches[k], reps, asked)
       && var loaded := svc.batches[k].load(KeysAt(svc.batches[k], reps, asked));
          loaded.Ok? && AnsweredBy(asked, loaded.value, i, v)
  }

  ghost predicate AnsweredBy(asked: seq<nat>, answers: seq<Result<Value, Error>>, i: nat, v: Value) {
    exists j :: 0 <= j < Reached(asked, answers) && asked[j] == i && answers[j] == Ok(v)
  }

  /** What landing the answers of a call does to index `i`. */
  ghost predicate TracedAt(before: Option<Value>, after: Option<Value>, asked: seq<nat>,
                           answers: seq<Result<Value, Error>>, i: nat) {
    && (before.Some? ==> after == before && forall v :: !AnsweredBy(asked, answers, i, v))
    && (after != before ==> after.Some? && AnsweredBy(asked, answers, i, after.value))
    && (forall v :: AnsweredBy(asked, answers, i, v) ==> after == Some(v))
  }

  lemma LandedTraced(before: Found, after: Found, asked: seq<nat>, answers: seq<Result<Value, Error>>, i: nat)
    requires Landed(before, after, asked, answers, Reached(asked, answers)) && i < |before|
    requires forall j :: 0 <= j < |asked| ==> asked[j] < |before| && before[asked[j]].None?
    ensures TracedAt(before[i], after[i], asked, answers, i)
  {
    var n := Reached(asked, answers);
    if i in asked[..n] {
      var j :| 0 <= j < n && asked[..n][j] == i;
      assert asked[j] == i;
    } else {
      assert forall j :: 0 <= j < n ==> asked[..n][j] == asked[j] && asked[j] != i;
    }
  }

  /** An answer is what one of the first `k` calls answered to this very key, and there is one whenever
      one of them answered. */
  ghost predicate Traced(answers: (nat, Value) -> bool, k: nat, answer: Option<Value>) {
    && (answer.Some? ==> exists m: nat :: m < k && answers(m, answer.value))
    && (forall m: nat, v :: m < k && answers(m, v) ==> answer == Some(v))
  }

  /** One more call, which is not asked about an index that has an answer. */
  lemma TracedNext(answers: (nat, Value) -> bool, k: nat, before: Option<Value>, after: Option<Value>)
    requires 0 < k && Traced(answers, k - 1, before) && TracedStep(answers, k - 1, before, after)
    ensures Traced(answers, k, after)
  {}

  ghost predicate TracedStep(answers: (nat, Value) -> bool, k: nat, before: Option<Value>, after: Option<Value>) {
    && (before.Some? ==> after == before && forall v :: !answers(k, v))
    && (after != before ==> after.Some? && answers(k, after.value))
    && (forall v :: answers(k, v) ==> after == Some(v))
  }

  /** Which of the calls made for a type answers what to index `i`. */
  ghost function CallAnswers(svc: Service, reps: seq<Value>, name: Name, i: nat): (nat, Value) -> bool {
    (m: nat, v) => m < |svc.batches| && Answers(svc, reps, name, m, i, v)
  }

  /** Batched answers come from the calls that are made, and no answer is lost. */
  lemma {:induction false} GroupAnswersTraced(svc: Service, reps: seq<Value>, name: Name, k: nat, i: nat)
    requires k <= |svc.batches| && i < |reps| && GroupAnswers(svc, reps, name, k).Ok?
    ensures Traced(CallAnswers(svc, reps, name, i), k, GroupAnswers(svc, reps, name, k).value[i])
  {
    if k > 0 {
      CallIsTracedStep(svc, reps, name, k, i);
      GroupAnswersTraced(svc, reps, name, k - 1, i);
      var before, after := GroupAnswers(svc, reps, name, k - 1).value[i], GroupAnswers(svc, reps, name, k).value[i];
      TracedNext(CallAnswers(svc, reps, name, i), k, before, after);
    } else {
      assert GroupAnswers(svc, reps, name, k).value[i] == None;
    }
  }

  lemma CallIsTracedStep(svc: Service, reps: seq<Value>, name: Name, k: nat, i: nat)
    requires 0 < k <= |svc.batches| && i < |reps| && GroupAnswers(svc, reps, name, k).Ok?
    ensures GroupAnswers(svc, reps, name, k - 1).Ok?
    ensures TracedStep(CallAnswers(svc, reps, name, i), k - 1, GroupAnswers(svc, reps, name, k - 1).value[i],
                       GroupAnswers(svc, reps, name, k).value[i])
  {
    if svc.batches[k - 1].entityType == name {
      CallTraced(svc, reps, name, k - 1, i);
    }
  }

  lemma CallTraced(svc: Service, reps: seq<Value>, name: Name, k: nat, i: nat)
    requires k < |svc.batches| && i < |reps| && svc.batches[k].entityType == name
    requires GroupAnswers(svc, reps, name, k + 1).Ok?
    ensures GroupAnswers(svc, reps, name, k).Ok?
    ensures var before, after := GroupAnswers(svc, reps, name, k).value, GroupAnswers(svc, reps, name, k + 1).value;
            && (before[i].Some? ==> after[i] == before[i] && forall v :: !Answers(svc, reps, name, k, i, v))
            && (after[i] != before[i] ==> after[i].Some? && Answers(svc, reps, name, k, i, after[i].value))
            && (forall v :: Answers(svc, reps, name, k, i, v) ==> after[i] == Some(v))
  {
    var b, before := svc.batches[k], GroupAnswers(svc, reps, name, k).value;
    var indices := IndicesOf(reps, |reps|, name);
    IndicesIncreasing(reps, |reps|, name);
    BatchOutcomeMeaning(b, reps, indices, before);
    var asked := Asked(b, reps, indices, before);
    assert forall j :: 0 <= j < |asked| ==> asked[j] in asked;
    if asked != [] {
      var answers := b.load(KeysAt(b, reps, asked)).value;
      LandedTraced(before, GroupAnswers(svc, reps, name, k + 1).value, asked, answers, i);
    }
  }

  /** The call that batch method `k` is sent for a type, if it is sent one, does not fail. */
  ghost predicate CallFine(svc: Service, reps: seq<Value>, name: Name, k: nat)
    requires k < |svc.batches|
  {
    svc.batches[k].entityType == name && GroupAnswers(svc, reps, name, k).Ok? ==>
      var b, results := svc.batches[k], GroupAnswers(svc, reps, name, k).value;
      var asked := Asked(b, reps, IndicesOf(reps, |reps|, name), results);
      HaveKeys(b, reps, asked) && (asked == [] || CallSucceeds(b, reps, asked))
  }

  /** Batching a type succeeds exactly when no call that is made for it fails. */
  lemma CallsDecide(svc: Service, reps: seq<Value>, name: Name, k: nat)
    requires k <= |svc.batches|
    ensures GroupAnswers(svc, reps, name, k).Ok? <==> forall m: nat :: m < k ==> CallFine(svc, reps, name, m)
  {
    var ok, fine := OkAfter(svc, reps, name), Fine(svc, reps, name);
    forall m: nat | m < k ensures ok(m + 1) <==> ok(m) && fine(m) {
      CallDecides(svc, reps, name, m);
    }
    Chain(ok, fine, k);
    assert ok(k) <==> GroupAnswers(svc, reps, name, k).Ok?;
    assert forall m: nat :: m < k ==> (fine(m) <==> CallFine(svc, reps, name, m));
  }

  function OkAfter(svc: Service, reps: seq<Value>, name: Name): nat -> bool {
    (k: nat) => k <= |svc.batches| && GroupAnswers(svc, reps, name, k).Ok?
  }

  ghost function Fine(svc: Service, reps: seq<Value>, name: Name): nat -> bool {
    (k: nat) => k < |svc.batches| && CallFine(svc, reps, name, k)
  }

  lemma {:induction false} Chain(ok: nat -> bool, fine: nat -> bool, k: nat)
    requires ok(0) && forall m: nat :: m < k ==> (ok(m + 1) <==> ok(m) && fine(m))
    ensures ok(k) <==> forall m: nat :: m < k ==> fine(m)
  {
    if k > 0 {
      Chain(ok, fine, k - 1);
    }
  }

  lemma CallDecides(svc: Service, reps: seq<Value>, name: Name, k: nat)
    requires k < |svc.batches|
    ensures GroupAnswers(svc, reps, name, k + 1).Ok? <==>
            GroupAnswers(svc, reps, name, k).Ok? && CallFine(svc, reps, name, k)
  {
    if GroupAnswers(svc, reps, name, k).Ok? && svc.batches[k].entityType == name {
      IndicesIncreasing(reps, |reps|, name);
      BatchOutcomeMeaning(svc.batches[k], reps, IndicesOf(reps, |reps|, name), GroupAnswers(svc, reps, name, k).value);
    }
  }

  // ----- batching is invisible -----

  /** Wherever a batch method has an answer, it is the one of `find_entity` for that key. */
  ghost predicate AgreeingBatches(svc: Service) {
    forall b, rep, keys, j, v :: b in svc.batches && SaysOf(b, rep, keys, j, v) ==> svc.findEntity(rep) == Ok(Some(v))
  }

  /** Asked for `keys`, the batch method answers `v` to key `j`, which is the key of `rep`. */
  predicate SaysOf(b: BatchResolver, rep: Value, keys: seq<Value>, j: nat, v: Value) {
    && TypeNameOf(rep) == Some(b.entityType)
    && b.load(keys).Ok? && j < |keys| && j < |b.load(keys).value|
    && KeyOf(b, rep) == Some(keys[j]) && b.load(keys).value[j] == Ok(v)
  }

  lemma BatchAnswerAgrees(svc: Service, reps: seq<Value>, i: nat)
    requires AgreeingBatches(svc) && i < |reps| && BatchAnswer(svc, reps, i).Some?
    ensures svc.findEntity(reps[i]) == Ok(BatchAnswer(svc, reps, i))
  {
    var name, v := TypeNameOf(reps[i]).value, BatchAnswer(svc, reps, i).value;
    GroupAnswersTraced(svc, reps, name, |svc.batches|, i);
    var k: nat :| k < |svc.batches| && CallAnswers(svc, reps, name, i)(k, v);
    var b := svc.batches[k];
    var asked := Asked(b, reps, IndicesOf(reps, |reps|, name), GroupAnswers(svc, reps, name, k).value);
    var keys := KeysAt(b, reps, asked);
    var j :| 0 <= j < Reached(asked, b.load(keys).value) && asked[j] == i && b.load(keys).value[j] == Ok(v);
    assert SaysOf(b, reps[i], keys, j, v);
  }

  /** No batch call that is made for these representations fails. */
  ghost predicate BatchesSucceed(svc: Service, reps: seq<Value>) {
    forall i :: 0 <= i < |reps| && TypeNameOf(reps[i]).Some? ==> AllBatches(svc, reps, TypeNameOf(reps[i]).value).Ok?
  }

  /** If batch methods agree with `find_entity` wherever they answer, a successful `find_entities` is
      `find_entity` on every representation, in order; and it succeeds exactly when all of those do
      and no batch call fails.  If batch methods also fail only for keys that `find_entity` fails for,
      batching cannot be observed at all. */
  method FindEntitiesPointwise(svc: Service, reps: seq<Value>) returns (r: Result<Found, Error>)
    requires AgreeingBatches(svc)
    ensures r.Ok? <==> BatchesSucceed(svc, reps) && forall i :: 0 <= i < |reps| ==> svc.findEntity(reps[i]).Ok?
    ensures HonestFailures(svc, reps) ==> (r.Ok? <==> forall i :: 0 <= i < |reps| ==> svc.findEntity(reps[i]).Ok?)
    ensures r.Ok? ==> |r.value| == |reps| && forall i :: 0 <= i < |reps| ==> svc.findEntity(reps[i]) == Ok(r.value[i])
  {
    forall i | 0 <= i < |reps| && BatchAnswer(svc, reps, i).Some?
      ensures svc.findEntity(reps[i]) == Ok(BatchAnswer(svc, reps, i))
    {
      BatchAnswerAgrees(svc, reps, i);
    }
    r := FindEntities(svc, reps);
    forall i | 0 <= i < |reps|
      ensures CanAnswer(svc, reps, i) <==>
              svc.findEntity(reps[i]).Ok?
              && (TypeNameOf(reps[i]).Some? ==> AllBatches(svc, reps, TypeNameOf(reps[i]).value).Ok?)
    {}
    if HonestFailures(svc, reps) && forall i :: 0 <= i < |reps| ==> svc.findEntity(reps[i]).Ok? {
      forall i | 0 <= i < |reps| && TypeNameOf(reps[i]).Some?
        ensures AllBatches(svc, reps, TypeNameOf(reps[i]).value).Ok?
      {
        HonestBatchesSucceed(svc, reps, TypeNameOf(reps[i]).value, |svc.batches|);
      }
    }
  }

  /** A batch method fails only for keys for which `find_entity` fails. */
  ghost predicate HonestFailures(svc: Service, reps: seq<Value>) {
    forall b, idxs ::
      b in svc.batches && HaveKeys(b, reps, idxs) && OfType(reps, idxs, b.entityType) && !CallSucceeds(b, reps, idxs)
      ==> exists j :: 0 <= j < |idxs| && idxs[j] < |reps| && svc.findEntity(reps[idxs[j]]).Err?
  }

  ghost predicate OfType(reps: seq<Value>, idxs: seq<nat>, name: Name) {
    forall j :: 0 <= j < |idxs| ==> idxs[j] < |reps| && TypeNameOf(reps[idxs[j]]) == Some(name)
  }

  /** Then failures are invisible too. */
  lemma {:induction false} HonestBatchesSucceed(svc: Service, reps: seq<Value>, name: Name, k: nat)
    requires HonestFailures(svc, reps) && k <= |svc.batches|
    requires forall i :: 0 <= i < |reps| ==> svc.findEntity(reps[i]).Ok?
    ensures GroupAnswers(svc, reps, name, k).Ok?
  {
    if k > 0 {
      HonestBatchesSucceed(svc, reps, name, k - 1);
      var b, before := svc.batches[k - 1], GroupAnswers(svc, reps, name, k - 1).value;
      if b.entityType == name {
        var indices := IndicesOf(reps, |reps|, name);
        IndicesIncreasing(reps, |reps|, name);
        BatchOutcomeMeaning(b, reps, indices, before);
        var asked := Asked(b, reps, indices, before);
        assert OfType(reps, asked, name) by {
          assert forall j :: 0 <= j < |asked| ==> asked[j] in asked;
        }
        assert b in svc.batches;
      }
    }
  }
}
