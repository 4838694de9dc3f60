/** Gathering results one after another, some of which contribute nothing. */
module Gathering {
  import opened Wrappers

  /** The first error ends it. */
  function Gather<T, E>(outcomes: seq<Result<Option<T>, E>>): Result<seq<T>, E> {
    if outcomes == [] then Ok([])
    else
      match Gather(outcomes[..|outcomes| - 1])
      case Err(e) => Err(e)
      case Ok(before) =>
        match outcomes[|outcomes| - 1]
        case Err(e) => Err(e)
        case Ok(last) => Ok(before + if last.Some? then [last.value] else [])
  }

  /** All values, if nothing fails. */
  function AllOk<T, E>(results: seq<Result<T, E>>): Result<seq<T>, E> {
    if results == [] then Ok([])
    else
      match AllOk(results[..|results| - 1])
      case Err(e) => Err(e)
      case Ok(before) =>
        match results[|results| - 1]
        case Err(e) => Err(e)
        case Ok(last) => Ok(before + [last])
  }

  lemma {:induction false} AllOkEach<T, E>(results: seq<Result<T, E>>, values: seq<T>)
    ensures AllOk(results) == Ok(values) <==>
            |values| == |results| && forall i :: 0 <= i < |results| ==> results[i] == Ok(values[i])
    ensures AllOk(results).Ok? <==> forall i :: 0 <= i < |results| ==> results[i].Ok?
  {
    if results != [] {
      var n := |results| - 1;
      AllOkEach(results[..n], if values == [] then [] else values[..|values| - 1]);
      assert forall i :: 0 <= i < n ==> results[..n][i] == results[i];
      if values != [] {
        var m := |values| - 1;
        assert values == values[..m] + [values[m]];
        assert forall i :: 0 <= i < m ==> values[..m][i] == values[i];
      }
    }
  }

  /** Indices below `n`, in ascending order. */
  ghost predicate Ascending(from: seq<nat>, n: nat) {
    && (forall j, k :: 0 <= j < k < |from| ==> from[j] < from[k])
    && (forall k :: 0 <= k < |from| ==> from[k] < n)
  }

  /** What was gathered comes, in order, from these indices, and all others contribute nothing. */
  ghost predicate Picked<T, E>(outcomes: seq<Result<Option<T>, E>>, from: seq<nat>, gathered: seq<T>) {
    && |from| == |gathered| && Ascending(from, |outcomes|)
    && (forall k :: 0 <= k < |from| ==> outcomes[from[k]] == Ok(Some(gathered[k])))
    && (forall i :: 0 <= i < |outcomes| && i !in from ==> outcomes[i] == Ok(None))
  }

  lemma {:induction false} GatherPicks<T, E>(outcomes: seq<Result<Option<T>, E>>, gathered: seq<T>)
    returns (from: seq<nat>)
    requires Gather(outcomes) == Ok(gathered)
    ensures Picked(outcomes, from, gathered)
  {
    from := [];
    if outcomes != [] {
      var n := |outcomes| - 1;
      from := GatherPicks(outcomes[..n], Gather(outcomes[..n]).value);
      assert forall i :: 0 <= i < n ==> outcomes[..n][i] == outcomes[i];
      if outcomes[n].value.Some? {
        var all := from + [n];
        assert all[|from|] == n && forall i :: i !in all ==> i !in from;
        from := all;
      }
    }
  }

  lemma PickedFront<T, E>(outcomes: seq<Result<Option<T>, E>>, from: seq<nat>, gathered: seq<T>)
    requires Picked(outcomes, from, gathered) && outcomes != []
    ensures var n, m := |outcomes| - 1, |from| - 1;
            if from != [] && from[m] == n
            then Picked(outcomes[..n], from[..m], gathered[..m]) && outcomes[n] == Ok(Some(gathered[m]))
            else Picked(outcomes[..n], from, gathered) && outcomes[n] == Ok(None)
  {
    var n, m := |outcomes| - 1, |from| - 1;
    assert forall i :: 0 <= i < n ==> outcomes[..n][i] == outcomes[i];
    if from != [] && from[m] == n {
      assert from == from[..m] + [n];
    } else {
      assert n !in from;
    }
  }

  lemma {:induction false} PickedGathers<T, E>(outcomes: seq<Result<Option<T>, E>>, from: seq<nat>, gathered: seq<T>)
    requires Picked(outcomes, from, gathered)
    ensures Gather(outcomes) == Ok(gathered)
  {
    if outcomes == [] {
      assert from == [];
    } else {
      var n, m := |outcomes| - 1, |from| - 1;
      PickedFront(outcomes, from, gathered);
      if from != [] && from[m] == n {
        PickedGathers(outcomes[..n], from[..m], gathered[..m]);
        assert gathered == gathered[..m] + [gathered[m]];
      } else {
        PickedGathers(outcomes[..n], from, gathered);
        assert gathered + [] == gathered;
      }
    }
  }

  lemma {:induction false} GatherOk<T, E>(outcomes: seq<Result<Option<T>, E>>)
    ensures Gather(outcomes).Ok? <==> forall i :: 0 <= i < |outcomes| ==> outcomes[i].Ok?
  {
    if outcomes != [] {
      var n := |outcomes| - 1;
      GatherOk(outcomes[..n]);
      assert forall i :: 0 <= i < n ==> outcomes[..n][i] == outcomes[i];
    }
  }
}
