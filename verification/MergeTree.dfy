/** Merged objects: the balanced tree of types that the derive macro builds, and the flat checks it
    emits beside it. */
module MergeTree {
  import opened Wrappers

  datatype TypeTree<T> =
    | Tail
    | Member(item: T)
    | Merged(first: TypeTree<T>, second: TypeTree<T>)

  /** `build_merge_tree_type`: the later half goes first. */
  function Build<T>(items: seq<T>): TypeTree<T>
    decreases |items|
  {
    if |items| == 0 then Tail
    else if |items| == 1 then Merged(Member(items[0]), Tail)
    else
      var mid := |items| / 2;
      Merged(Build(items[mid..]), Build(items[..mid]))
  }

  /** The members, first argument first. */
  function Members<T>(t: TypeTree<T>): seq<T> {
    match t
    case Tail => []
    case Member(item) => [item]
    case Merged(first, second) => Members(first) + Members(second)
  }

  function Reverse<T>(items: seq<T>): seq<T> {
    if items == [] then [] else [items[|items| - 1]] + Reverse(items[..|items| - 1])
  }

  lemma {:induction false} ReverseAt<T>(items: seq<T>, i: nat)
    requires i < |items|
    ensures |Reverse(items)| == |items| && Reverse(items)[i] == items[|items| - 1 - i]
  {
    if i > 0 {
      ReverseAt(items[..|items| - 1], i - 1);
    } else if |items| > 1 {
      ReverseAt(items[..|items| - 1], 0);
    }
  }

  lemma {:induction false} ReverseConcat<T>(a: seq<T>, b: seq<T>)
    ensures Reverse(a + b) == Reverse(b) + Reverse(a)
  {
    if b == [] {
      assert a + b == a;
    } else {
      ReverseConcat(a, b[..|b| - 1]);
      assert (a + b)[..|a + b| - 1] == a + b[..|b| - 1];
    }
  }

  /** The tree lists the members in exactly reverse declaration order. */
  lemma {:induction false} TreeOrder<T>(items: seq<T>)
    ensures Members(Build(items)) == Reverse(items)
    decreases |items|
  {
    if |items| == 1 {
      assert items[..0] == [];
    } else if |items| > 1 {
      var mid := |items| / 2;
      TreeOrder(items[..mid]);
      TreeOrder(items[mid..]);
      ReverseConcat(items[..mid], items[mid..]);
      assert items == items[..mid] + items[mid..];
    }
  }

  /** The number of `MergedObject` constructors on the longest branch. */
  function Depth<T>(t: TypeTree<T>): nat {
    match t
    case Merged(first, second) => 1 + if Depth(first) < Depth(second) then Depth(second) else Depth(first)
    case _ => 0
  }

  function Pow2(n: nat): nat {
    if n == 0 then 1 else 2 * Pow2(n - 1)
  }

  /** `n` is the ceiling of the binary logarithm of `m`. */
  predicate IsLog2Ceiling(n: nat, m: nat) {
    m <= Pow2(n) && (n > 0 ==> Pow2(n - 1) < m)
  }

  /** For m members the tree is ceil(log2 m) + 1 deep. */
  lemma {:induction false} TreeDepth<T>(items: seq<T>)
    requires items != []
    ensures Depth(Build(items)) >= 1 && IsLog2Ceiling(Depth(Build(items)) - 1, |items|)
    decreases |items|
  {
    if |items| > 1 {
      var mid := |items| / 2;
      var a, b := Depth(Build(items[..mid])), Depth(Build(items[mid..]));
      TreeDepth(items[..mid]);
      TreeDepth(items[mid..]);
      if b < a {
        Pow2Grows(b - 1, a - 2);
        assert false;
      }
    }
  }

  lemma {:induction false} Pow2Grows(a: nat, b: nat)
    requires a <= b
    ensures Pow2(a) <= Pow2(b)
  {
    if a < b {
      Pow2Grows(a, b - 1);
    }
  }

  // ----- resolving through the tree and through the flat checks -----

  /** The first answer that is not "no such field"; an error ends the search. */
  function FirstSome<V, E>(answers: seq<Result<Option<V>, E>>): Result<Option<V>, E> {
    if answers == [] then Ok(None)
    else if answers[0] == Ok(None) then FirstSome(answers[1..])
    else answers[0]
  }

  /** Answer `k` decides: no earlier one says anything. */
  predicate Decides<V, E>(answers: seq<Result<Option<V>, E>>, k: nat) {
    k < |answers| && answers[k] != Ok(None) && forall j :: 0 <= j < k ==> answers[j] == Ok(None)
  }

  lemma {:induction false} FirstSomeMeaning<V, E>(answers: seq<Result<Option<V>, E>>)
    ensures forall k: nat :: Decides(answers, k) ==> FirstSome(answers) == answers[k]
    ensures (forall k :: 0 <= k < |answers| ==> answers[k] == Ok(None)) ==> FirstSome(answers) == Ok(None)
  {
    if answers != [] {
      var rest := answers[1..];
      FirstSomeMeaning(rest);
      assert forall i :: 0 <= i < |rest| ==> rest[i] == answers[i + 1];
      forall k: nat | Decides(answers, k) && k > 0 ensures Decides(rest, k - 1) {}
    }
  }

  /** `MergedObject<A, B>`: ask A, and B only if A has nothing; the tail has nothing. */
  function AskTree<T, V, E>(t: TypeTree<T>, ask: T -> Result<Option<V>, E>): Result<Option<V>, E> {
    match t
    case Tail => Ok(None)
    case Member(item) => ask(item)
    case Merged(first, second) =>
      match AskTree(first, ask)
      case Ok(Some(v)) => Ok(Some(v))
      case Ok(None) => AskTree(second, ask)
      case Err(e) => Err(e)
  }

  function AskEach<T, V, E>(items: seq<T>, ask: T -> Result<Option<V>, E>): seq<Result<Option<V>, E>> {
    seq(|items|, i requires 0 <= i < |items| => ask(items[i]))
  }

  lemma {:induction false} FirstSomeConcat<V, E>(a: seq<Result<Option<V>, E>>, b: seq<Result<Option<V>, E>>)
    ensures FirstSome(a + b) == if FirstSome(a) == Ok(None) then FirstSome(b) else FirstSome(a)
  {
    if a == [] {
      assert a + b == b;
    } else {
      FirstSomeConcat(a[1..], b);
      assert (a + b)[1..] == a[1..] + b;
    }
  }

  lemma {:induction false} TreeAsksInOrder<T, V, E>(t: TypeTree<T>, ask: T -> Result<Option<V>, E>)
    ensures AskTree(t, ask) == FirstSome(AskEach(Members(t), ask))
  {
    match t
    case Tail =>
    case Member(item) => assert AskEach([item], ask) == [ask(item)];
    case Merged(first, second) =>
      TreeAsksInOrder(first, ask);
      TreeAsksInOrder(second, ask);
      FirstSomeConcat(AskEach(Members(first), ask), AskEach(Members(second), ask));
      assert AskEach(Members(t), ask) == AskEach(Members(first), ask) + AskEach(Members(second), ask);
  }

  /** The emitted chain of checks over the fields of the struct, last declared first. */
  method AskFlat<T, V, E>(items: seq<T>, ask: T -> Result<Option<V>, E>) returns (r: Result<Option<V>, E>)
    ensures r == FirstSome(AskEach(Reverse(items), ask))
  {
    var i := |items|;
    assert items[..i] == items;
    while i > 0
      invariant 0 <= i <= |items|
      invariant FirstSome(AskEach(Reverse(items), ask)) == FirstSome(AskEach(Reverse(items[..i]), ask))
    {
      var front := items[..i];
      assert front[..i - 1] == items[..i - 1];
      assert AskEach(Reverse(front), ask)[1..] == AskEach(Reverse(items[..i - 1]), ask);
      i := i - 1;
      r := ask(items[i]);
      match r {
        case Ok(None) =>
        case _ => return;
      }
    }
    assert items[..0] == [];
    r := Ok(None);
  }

  /** Registration walks the tree, execution the flat checks: both ask the members in the same order,
      so they give the same answer. */
  lemma TreeAgreesWithFlat<T, V, E>(items: seq<T>, ask: T -> Result<Option<V>, E>)
    ensures AskTree(Build(items), ask) == FirstSome(AskEach(Reverse(items), ask))
  {
    TreeAsksInOrder(Build(items), ask);
    TreeOrder(items);
  }
}
