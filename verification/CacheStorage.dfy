/** The three cache storages of the data loader.

    A boxed `CacheStorage` is one value of `Store`: the empty cache, a hash map, or a bounded
    recency list that keeps the most recently used entry first. */
module CacheStorage {
  import opened Wrappers

  type Key(==, 0, !new)
  type Value(==, 0, !new)

  datatype Entry = Entry(key: Key, value: Value)

  datatype Store =
    | NoCache
    | HashMapCache(entries: map<Key, Value>)
    | LruCache(cap: nat, recent: seq<Entry>)

  // ----- recency lists -----

  function Lookup(es: seq<Entry>, k: Key): Option<Value> {
    if es == [] then None
    else if es[0].key == k then Some(es[0].value)
    else Lookup(es[1..], k)
  }

  function Without(es: seq<Entry>, k: Key): seq<Entry> {
    if es == [] then []
    else if es[0].key == k then Without(es[1..], k)
    else [es[0]] + Without(es[1..], k)
  }

  ghost predicate DistinctKeys(es: seq<Entry>) {
    forall i, j :: 0 <= i < j < |es| ==> es[i].key != es[j].key
  }

  ghost predicate Valid(s: Store) {
    s.LruCache? ==> 1 <= s.cap && |s.recent| <= s.cap && DistinctKeys(s.recent)
  }

  /** The association a store currently answers from. */
  function Contents(s: Store): map<Key, Value> {
    match s
    case NoCache => map[]
    case HashMapCache(m) => m
    case LruCache(_, es) => MapOf(es)
  }

  function MapOf(es: seq<Entry>): map<Key, Value> {
    if es == [] then map[] else MapOf(es[1..])[es[0].key := es[0].value]
  }

  // ----- the operations of the storage interface -----

  /** `get` also moves a hit to the front of a recency list. */
  function Get(s: Store, k: Key): (Option<Value>, Store) {
    match s
    case NoCache => (None, s)
    case HashMapCache(m) => (if k in m then Some(m[k]) else None, s)
    case LruCache(cap, es) =>
      match Lookup(es, k)
      case None => (None, s)
      case Some(v) => (Some(v), LruCache(cap, [Entry(k, v)] + Without(es, k)))
  }

  /** `insert`; a full recency list gives up its last entry for a new key. */
  function Put(s: Store, k: Key, v: Value): Store {
    match s
    case NoCache => s
    case HashMapCache(m) => HashMapCache(m[k := v])
    case LruCache(cap, es) =>
      LruCache(cap,
               [Entry(k, v)] +
               if Lookup(es, k).None? && cap <= |es| && es != [] then es[..|es| - 1] else Without(es, k))
  }

  function Pop(s: Store, k: Key): Store {
    match s
    case NoCache => s
    case HashMapCache(m) => HashMapCache(m - {k})
    case LruCache(cap, es) => LruCache(cap, Without(es, k))
  }

  function Emptied(s: Store): Store {
    match s
    case NoCache => s
    case HashMapCache(_) => HashMapCache(map[])
    case LruCache(cap, _) => LruCache(cap, [])
  }

  // ----- what the recency list functions mean -----

  lemma {:induction false} LookupIsMapOf(es: seq<Entry>, k: Key)
    ensures Lookup(es, k).Some? <==> k in MapOf(es)
    ensures k in MapOf(es) ==> MapOf(es)[k] == Lookup(es, k).value
    ensures k in MapOf(es) <==> exists i :: 0 <= i < |es| && es[i].key == k
  {
    if es != [] {
      LookupIsMapOf(es[1..], k);
      if k in MapOf(es[1..]) {
        var i :| 0 <= i < |es[1..]| && es[1..][i].key == k;
        assert es[i + 1].key == k;
      }
      assert forall i :: 1 <= i < |es| ==> es[i] == es[1..][i - 1];
    }
  }

  lemma {:induction false} WithoutMembers(es: seq<Entry>, k: Key)
    ensures |Without(es, k)| <= |es|
    ensures forall e :: e in Without(es, k) <==> e in es && e.key != k
  {
    if es != [] {
      WithoutMembers(es[1..], k);
      assert es == [es[0]] + es[1..];
      assert forall e :: e in es <==> e == es[0] || e in es[1..];
    }
  }

  lemma {:induction false} WithoutDistinct(es: seq<Entry>, k: Key)
    requires DistinctKeys(es)
    ensures DistinctKeys(Without(es, k))
    ensures k in MapOf(es) ==> |Without(es, k)| == |es| - 1
    ensures k !in MapOf(es) ==> Without(es, k) == es
  {
    if es != [] {
      var tail := es[1..];
      WithoutDistinct(tail, k);
      LookupIsMapOf(tail, k);
      WithoutMembers(tail, k);
      assert forall i :: 0 <= i < |tail| ==> tail[i] == es[i + 1];
      if es[0].key != k {
        forall i | 0 <= i < |Without(tail, k)|
          ensures Without(tail, k)[i].key != es[0].key
        {
          assert Without(tail, k)[i] in tail;
        }
      }
    }
  }

  lemma {:induction false} WithoutMap(es: seq<Entry>, k: Key)
    ensures MapOf(Without(es, k)) == MapOf(es) - {k}
  {
    if es != [] {
      WithoutMap(es[1..], k);
      if es[0].key != k {
        assert ([es[0]] + Without(es[1..], k))[1..] == Without(es[1..], k);
      }
    }
  }

  lemma WithoutKeeps(es: seq<Entry>, k: Key)
    requires DistinctKeys(es)
    ensures DistinctKeys(Without(es, k)) && k !in MapOf(Without(es, k))
    ensures forall i :: 0 <= i < |Without(es, k)| ==> Without(es, k)[i].key != k
    ensures |Without(es, k)| == if k in MapOf(es) then |es| - 1 else |es|
    ensures k !in MapOf(es) ==> Without(es, k) == es
    ensures MapOf(Without(es, k)) == MapOf(es) - {k}
  {
    WithoutDistinct(es, k);
    WithoutMap(es, k);
    LookupIsMapOf(Without(es, k), k);
  }

  lemma {:induction false} DropLastMap(es: seq<Entry>)
    requires es != [] && DistinctKeys(es)
    ensures MapOf(es[..|es| - 1]) == MapOf(es) - {es[|es| - 1].key}
  {
    if |es| == 1 {
      assert MapOf(es[..0]) == map[];
    } else {
      var tail := es[1..];
      DropLastMap(tail);
      assert es[..|es| - 1][1..] == tail[..|tail| - 1];
    }
  }

  /** `get` answers from the contents and never changes them. */
  lemma GetMeaning(s: Store, k: Key)
    ensures Get(s, k).0.Some? <==> k in Contents(s)
    ensures k in Contents(s) ==> Get(s, k).0.value == Contents(s)[k]
    ensures Contents(Get(s, k).1) == Contents(s)
  {
    if s.LruCache? {
      LookupIsMapOf(s.recent, k);
      WithoutMap(s.recent, k);
      if k in Contents(s) {
        var es := [Entry(k, Lookup(s.recent, k).value)] + Without(s.recent, k);
        assert es[1..] == Without(s.recent, k);
      }
    }
  }

  /** `insert` never lies: afterwards every entry is the new pair or one that was there.  The hash
      map keeps everything; the recency list loses at most its oldest entry, and only when full. */
  lemma PutMeaning(s: Store, k: Key, v: Value)
    requires Valid(s)
    ensures Contents(Put(s, k, v)).Items <= Contents(s)[k := v].Items
    ensures s.HashMapCache? ==> Contents(Put(s, k, v)) == Contents(s)[k := v]
    ensures s.LruCache? ==>
              Contents(Put(s, k, v)) ==
              if k !in Contents(s) && |s.recent| == s.cap
              then (Contents(s) - {s.recent[|s.recent| - 1].key})[k := v]
              else Contents(s)[k := v]
  {
    if s.LruCache? {
      PutInList(s, k, v);
      ForgetThenUpdate(Contents(s), if s.recent == [] then k else s.recent[|s.recent| - 1].key, k, v);
    }
  }

  lemma PutInList(s: Store, k: Key, v: Value)
    requires s.LruCache? && Valid(s)
    ensures Contents(Put(s, k, v)) ==
            if k !in Contents(s) && |s.recent| == s.cap
            then (Contents(s) - {s.recent[|s.recent| - 1].key})[k := v]
            else Contents(s)[k := v]
  {
    var es := s.recent;
    LookupIsMapOf(es, k);
    WithoutKeeps(es, k);
    var es' := Put(s, k, v).recent;
    assert MapOf(es') == MapOf(es'[1..])[k := v];
    if k !in Contents(s) && |es| == s.cap {
      DropLastMap(es);
      assert es'[1..] == es[..|es| - 1];
    } else {
      assert es'[1..] == Without(es, k);
    }
  }

  lemma ForgetThenUpdate(m: map<Key, Value>, x: Key, k: Key, v: Value)
    ensures (m - {x})[k := v].Items <= m[k := v].Items
  {}

  lemma PopMeaning(s: Store, k: Key)
    ensures Contents(Pop(s, k)) == Contents(s) - {k}
  {
    if s.LruCache? {
      WithoutMap(s.recent, k);
    }
  }

  // ----- runs of operations -----

  datatype Op = GetOp(key: Key) | InsertOp(key: Key, value: Value) | RemoveOp(key: Key) | ClearOp

  function Apply(s: Store, op: Op): Store {
    match op
    case GetOp(k) => Get(s, k).1
    case InsertOp(k, v) => Put(s, k, v)
    case RemoveOp(k) => Pop(s, k)
    case ClearOp => Emptied(s)
  }

  function Run(s: Store, ops: seq<Op>): Store {
    if ops == [] then s else Apply(Run(s, ops[..|ops| - 1]), ops[|ops| - 1])
  }

  /** Every storage keeps its representation invariant, and stays the kind of storage it is. */
  lemma ApplyValid(s: Store, op: Op)
    requires Valid(s)
    ensures Valid(Apply(s, op))
    ensures s.NoCache? <==> Apply(s, op).NoCache?
    ensures s.HashMapCache? <==> Apply(s, op).HashMapCache?
    ensures s.LruCache? ==> Apply(s, op).LruCache? && Apply(s, op).cap == s.cap
  {
    if s.LruCache? && !op.ClearOp? {
      WithoutKeeps(s.recent, op.key);
      LookupIsMapOf(s.recent, op.key);
    }
  }

  lemma {:induction false} RunValid(s: Store, ops: seq<Op>)
    requires Valid(s)
    ensures Valid(Run(s, ops))
    ensures s.NoCache? <==> Run(s, ops).NoCache?
    ensures s.HashMapCache? <==> Run(s, ops).HashMapCache?
    ensures s.LruCache? ==> Run(s, ops).LruCache? && Run(s, ops).cap == s.cap
  {
    if ops != [] {
      RunValid(s, ops[..|ops| - 1]);
      ApplyValid(Run(s, ops[..|ops| - 1]), ops[|ops| - 1]);
    }
  }

  lemma ApplyMeaning(s: Store, op: Op)
    requires Valid(s)
    ensures op.GetOp? ==> Contents(Apply(s, op)) == Contents(s)
    ensures op.InsertOp? ==> Contents(Apply(s, op)).Items <= Contents(s)[op.key := op.value].Items
    ensures op.RemoveOp? ==> Contents(Apply(s, op)) == Contents(s) - {op.key}
    ensures op.ClearOp? ==> Contents(Apply(s, op)) == map[]
  {
    match op
    case GetOp(k) => GetMeaning(s, k);
    case InsertOp(k, v) => PutMeaning(s, k, v);
    case RemoveOp(k) => PopMeaning(s, k);
    case ClearOp =>
  }

  /** Over every history, a recency list answers only what the unbounded hash map would answer. */
  lemma {:induction false} LruWithinHashMap(cap: nat, ops: seq<Op>)
    requires 1 <= cap
    ensures Contents(Run(LruCache(cap, []), ops)).Items <= Contents(Run(HashMapCache(map[]), ops)).Items
    ensures |Contents(Run(LruCache(cap, []), ops))| <= cap
  {
    RunValid(LruCache(cap, []), ops);
    MapOfSize(Run(LruCache(cap, []), ops).recent);
    if ops != [] {
      var ops', op := ops[..|ops| - 1], ops[|ops| - 1];
      LruWithinHashMap(cap, ops');
      RunValid(LruCache(cap, []), ops');
      RunValid(HashMapCache(map[]), ops');
      var a, b := Run(LruCache(cap, []), ops'), Run(HashMapCache(map[]), ops');
      ApplyMeaning(a, op);
      ApplyMeaning(b, op);
      if op.InsertOp? {
        PutMeaning(b, op.key, op.value);
      }
      SubmapUpdate(Contents(a), Contents(b), op);
    }
  }

  lemma {:induction false} MapOfSize(es: seq<Entry>)
    ensures |MapOf(es)| <= |es|
  {
    if es != [] {
      MapOfSize(es[1..]);
    }
  }

  lemma SubmapUpdate(a: map<Key, Value>, b: map<Key, Value>, op: Op)
    requires a.Items <= b.Items
    ensures op.InsertOp? ==> a[op.key := op.value].Items <= b[op.key := op.value].Items
    ensures op.RemoveOp? ==> (a - {op.key}).Items <= (b - {op.key}).Items
  {
    forall k | k in a ensures k in b && a[k] == b[k] {
      assert (k, a[k]) in a.Items;
    }
  }

  // ----- the recency list is in order of last use -----

  predicate Touches(op: Op, k: Key) {
    (op.GetOp? || op.InsertOp?) && op.key == k
  }

  /** When a key was last looked up or stored, or -1. */
  function LastUse(ops: seq<Op>, k: Key): int {
    if ops == [] then -1
    else if Touches(ops[|ops| - 1], k) then |ops| - 1
    else LastUse(ops[..|ops| - 1], k)
  }

  lemma {:induction false} LastUseMeaning(ops: seq<Op>, k: Key)
    ensures -1 <= LastUse(ops, k) < |ops|
    ensures 0 <= LastUse(ops, k) ==> Touches(ops[LastUse(ops, k)], k)
    ensures forall i :: LastUse(ops, k) < i < |ops| ==> !Touches(ops[i], k)
  {
    if ops != [] {
      LastUseMeaning(ops[..|ops| - 1], k);
    }
  }

  ghost predicate ByLastUse(es: seq<Entry>, ops: seq<Op>) {
    forall i, j :: 0 <= i < j < |es| ==> LastUse(ops, es[j].key) < LastUse(ops, es[i].key)
  }

  lemma {:induction false} WithoutByLastUse(es: seq<Entry>, ops: seq<Op>, k: Key)
    requires ByLastUse(es, ops)
    ensures ByLastUse(Without(es, k), ops)
  {
    if es != [] {
      var tail := es[1..];
      assert forall i :: 0 <= i < |tail| ==> tail[i] == es[i + 1];
      WithoutByLastUse(tail, ops, k);
      WithoutMembers(tail, k);
      if es[0].key != k {
        forall j | 0 <= j < |Without(tail, k)|
          ensures LastUse(ops, Without(tail, k)[j].key) < LastUse(ops, es[0].key)
        {
          assert Without(tail, k)[j] in tail;
        }
      }
    }
  }

  /** A list in order before an operation that puts `k` in front, if it touches it at all. */
  lemma UsedLast(es: seq<Entry>, ops: seq<Op>, op: Op, e: Entry)
    requires ByLastUse(es, ops) && Touches(op, e.key) && forall i :: 0 <= i < |es| ==> es[i].key != e.key
    ensures ByLastUse([e] + es, ops + [op])
  {
    var all := ops + [op];
    assert all[..|ops|] == ops;
    forall i | 0 <= i < |es| ensures LastUse(all, es[i].key) == LastUse(ops, es[i].key) < |ops| {
      LastUseMeaning(ops, es[i].key);
    }
  }

  lemma NotUsed(es: seq<Entry>, ops: seq<Op>, op: Op)
    requires ByLastUse(es, ops) && forall i :: 0 <= i < |es| ==> !Touches(op, es[i].key)
    ensures ByLastUse(es, ops + [op])
  {
    assert (ops + [op])[..|ops|] == ops;
  }

  lemma ApplyByLastUse(s: Store, ops: seq<Op>, op: Op)
    requires s.LruCache? && Valid(s) && ByLastUse(s.recent, ops)
    ensures Apply(s, op).LruCache? && ByLastUse(Apply(s, op).recent, ops + [op])
  {
    var es := s.recent;
    if op.ClearOp? {
    } else {
      var k := op.key;
      WithoutKeeps(es, k);
      WithoutByLastUse(es, ops, k);
      LookupIsMapOf(es, k);
      if op.RemoveOp? {
        NotUsed(Without(es, k), ops, op);
      } else if op.GetOp? && Lookup(es, k).None? {
        NotUsed(es, ops, op);
      } else {
        var rest := Apply(s, op).recent[1..];
        assert rest == Without(es, k) || rest == es[..|es| - 1];
        UsedLast(rest, ops, op, Apply(s, op).recent[0]);
      }
    }
  }

  lemma {:induction false} RunByLastUse(cap: nat, ops: seq<Op>)
    requires 1 <= cap
    ensures Run(LruCache(cap, []), ops).LruCache? && ByLastUse(Run(LruCache(cap, []), ops).recent, ops)
  {
    if ops != [] {
      var n := |ops| - 1;
      RunByLastUse(cap, ops[..n]);
      RunValid(LruCache(cap, []), ops[..n]);
      ApplyByLastUse(Run(LruCache(cap, []), ops[..n]), ops[..n], ops[n]);
      assert ops == ops[..n] + [ops[n]];
    }
  }

  /** After any history, storing a new key in a full list forgets exactly the key whose last lookup or
      insertion is the longest ago. */
  lemma EvictsLeastRecentlyUsed(cap: nat, ops: seq<Op>, k: Key, v: Value)
    requires 1 <= cap
    ensures var s := Run(LruCache(cap, []), ops);
            k !in Contents(s) && |Contents(s)| == cap ==>
              exists x :: x in Contents(s) && Contents(Put(s, k, v)) == (Contents(s) - {x})[k := v]
                          && forall y :: y in Contents(s) && y != x ==> LastUse(ops, x) < LastUse(ops, y)
  {
    var s := Run(LruCache(cap, []), ops);
    RunByLastUse(cap, ops);
    RunValid(LruCache(cap, []), ops);
    MapOfSize(s.recent);
    PutMeaning(s, k, v);
    if k !in Contents(s) && |Contents(s)| == cap {
      var n := |s.recent| - 1;
      var x := s.recent[n].key;
      LookupIsMapOf(s.recent, x);
      forall y | y in Contents(s) && y != x ensures LastUse(ops, x) < LastUse(ops, y) {
        LookupIsMapOf(s.recent, y);
        var i :| 0 <= i < |s.recent| && s.recent[i].key == y;
        assert i < n;
      }
    }
  }

  // ----- a larger recency list never remembers less -----

  /** `a` is `b` with some entries left out, in the same order. */
  ghost predicate Thinned(a: seq<Entry>, b: seq<Entry>) {
    a == [] ||
    (b != [] && ((a[0] == b[0] && Thinned(a[1..], b[1..])) || Thinned(a, b[1..])))
  }

  lemma {:induction false} ThinnedMembers(a: seq<Entry>, b: seq<Entry>)
    requires Thinned(a, b)
    ensures |a| <= |b|
    ensures forall e :: e in a ==> e in b
  {
    if a != [] {
      if Thinned(a, b[1..]) {
        ThinnedMembers(a, b[1..]);
      } else {
        ThinnedMembers(a[1..], b[1..]);
        assert forall e :: e in a ==> e == a[0] || e in a[1..];
      }
    }
  }

  lemma ThinnedCons(a: seq<Entry>, b: seq<Entry>, e: Entry)
    requires Thinned(a, b)
    ensures Thinned(a, [e] + b)
    ensures Thinned([e] + a, [e] + b)
  {
    assert ([e] + b)[1..] == b && ([e] + a)[1..] == a;
  }

  lemma {:induction false} ThinnedTail(a: seq<Entry>, b: seq<Entry>)
    requires Thinned(a, b) && a != []
    ensures Thinned(a[1..], b)
  {
    if Thinned(a, b[1..]) {
      ThinnedTail(a, b[1..]);
    }
    ThinnedCons(a[1..], b[1..], b[0]);
    assert [b[0]] + b[1..] == b;
  }

  lemma {:induction false} ThinnedWithout(a: seq<Entry>, b: seq<Entry>, k: Key)
    requires Thinned(a, b)
    ensures Thinned(Without(a, k), Without(b, k))
  {
    if a != [] {
      if Thinned(a, b[1..]) {
        ThinnedWithout(a, b[1..], k);
        ThinnedCons(Without(a, k), Without(b[1..], k), b[0]);
      } else {
        ThinnedWithout(a[1..], b[1..], k);
        ThinnedCons(Without(a[1..], k), Without(b[1..], k), b[0]);
      }
    }
  }

  lemma DropLastCons(s: seq<Entry>)
    requires 1 < |s|
    ensures s == [s[0]] + s[1..] && s[..|s| - 1] == [s[0]] + s[1..][..|s| - 2]
  {}

  lemma {:induction false} ThinnedDropLast(a: seq<Entry>, b: seq<Entry>)
    requires Thinned(a, b) && a != []
    ensures Thinned(a[..|a| - 1], b)
    ensures Thinned(a[..|a| - 1], b[..|b| - 1])
  {
    ThinnedMembers(a, b);
    if Thinned(a, b[1..]) {
      ThinnedDropLast(a, b[1..]);
      ThinnedMembers(a, b[1..]);
      DropLastCons(b);
      ThinnedCons(a[..|a| - 1], b[1..][..|b| - 2], b[0]);
    } else if |a| > 1 {
      ThinnedMembers(a[1..], b[1..]);
      ThinnedDropLast(a[1..], b[1..]);
      DropLastCons(a);
      DropLastCons(b);
      ThinnedCons(a[1..][..|a| - 2], b[1..], b[0]);
      ThinnedCons(a[1..][..|a| - 2], b[1..][..|b| - 2], b[0]);
    }
  }

  ghost predicate Dominates(big: Store, small: Store) {
    && big.LruCache? && small.LruCache?
    && Thinned(small.recent, big.recent)
    && small.cap - |small.recent| <= big.cap - |big.recent|
  }

  lemma ThinnedLookup(a: seq<Entry>, b: seq<Entry>, k: Key)
    requires Thinned(a, b) && DistinctKeys(b)
    requires k in MapOf(a)
    ensures k in MapOf(b) && Lookup(a, k) == Lookup(b, k)
  {
    LookupSome(a, k);
    LookupSome(b, k);
    ThinnedMembers(a, b);
    LookupIsMapOf(a, k);
    var i :| 0 <= i < |a| && a[i] == Entry(k, Lookup(a, k).value);
    assert a[i] in a;
    var j :| 0 <= j < |b| && b[j] == a[i];
    LookupIsMapOf(b, k);
    var j' :| 0 <= j' < |b| && b[j'] == Entry(k, Lookup(b, k).value);
  }

  lemma {:induction false} LookupSome(es: seq<Entry>, k: Key)
    ensures Lookup(es, k).Some? ==> exists i :: 0 <= i < |es| && es[i] == Entry(k, Lookup(es, k).value)
  {
    if es != [] {
      LookupSome(es[1..], k);
      if es[0].key != k && Lookup(es[1..], k).Some? {
        var i :| 0 <= i < |es[1..]| && es[1..][i] == Entry(k, Lookup(es[1..], k).value);
        assert es[i + 1] == Entry(k, Lookup(es, k).value);
      }
    }
  }

  lemma GetDominates(big: Store, small: Store, k: Key)
    requires Dominates(big, small) && Valid(big) && Valid(small)
    ensures Dominates(Get(big, k).1, Get(small, k).1)
  {
    var a, b := small.recent, big.recent;
    LookupIsMapOf(a, k);
    LookupIsMapOf(b, k);
    WithoutKeeps(a, k);
    WithoutKeeps(b, k);
    ThinnedWithout(a, b, k);
    if k in MapOf(a) {
      ThinnedLookup(a, b, k);
    }
    if k in MapOf(b) {
      ThinnedCons(Without(a, k), Without(b, k), Entry(k, Lookup(b, k).value));
    }
  }

  lemma PutDominates(big: Store, small: Store, k: Key, v: Value)
    requires Dominates(big, small) && Valid(big) && Valid(small)
    ensures Dominates(Put(big, k, v), Put(small, k, v))
  {
    var a, b := small.recent, big.recent;
    LookupIsMapOf(a, k);
    LookupIsMapOf(b, k);
    WithoutKeeps(a, k);
    WithoutKeeps(b, k);
    ThinnedWithout(a, b, k);
    if k in MapOf(a) {
      ThinnedLookup(a, b, k);
    } else if |a| == small.cap {
      ThinnedDropLast(a, b);
      if k in MapOf(b) {
        ThinnedDropLast(a, Without(b, k));
      }
    }
    ThinnedCons(Put(small, k, v).recent[1..], Put(big, k, v).recent[1..], Entry(k, v));
  }

  lemma RemoveDominates(big: Store, small: Store, k: Key)
    requires Dominates(big, small) && Valid(big) && Valid(small)
    ensures Dominates(Pop(big, k), Pop(small, k))
  {
    var a, b := small.recent, big.recent;
    ThinnedWithout(a, b, k);
    WithoutKeeps(a, k);
    WithoutKeeps(b, k);
    if k in MapOf(a) {
      ThinnedLookup(a, b, k);
    }
  }

  /** After the same history of gets, inserts, removes and clears, a recency list of larger capacity
      holds every entry of the smaller one, and in the same order of use. */
  lemma {:induction false} LargerLruDominates(big: nat, small: nat, ops: seq<Op>)
    requires 1 <= small <= big
    ensures Dominates(Run(LruCache(big, []), ops), Run(LruCache(small, []), ops))
    ensures Contents(Run(LruCache(small, []), ops)).Items <= Contents(Run(LruCache(big, []), ops)).Items
  {
    if ops != [] {
      var ops', op := ops[..|ops| - 1], ops[|ops| - 1];
      LargerLruDominates(big, small, ops');
      RunValid(LruCache(big, []), ops');
      RunValid(LruCache(small, []), ops');
      var b, a := Run(LruCache(big, []), ops'), Run(LruCache(small, []), ops');
      ApplyDominates(b, a, op);
    }
    RunValid(LruCache(big, []), ops);
    DominatesContents(Run(LruCache(big, []), ops), Run(LruCache(small, []), ops));
  }

  lemma ApplyDominates(big: Store, small: Store, op: Op)
    requires Dominates(big, small) && Valid(big) && Valid(small)
    ensures Dominates(Apply(big, op), Apply(small, op))
  {
    match op
    case GetOp(k) => GetDominates(big, small, k);
    case InsertOp(k, v) => PutDominates(big, small, k, v);
    case RemoveOp(k) => RemoveDominates(big, small, k);
    case ClearOp => ThinnedMembers(small.recent, big.recent);
  }

  lemma DominatesContents(big: Store, small: Store)
    requires Dominates(big, small) && Valid(big)
    ensures Contents(small).Items <= Contents(big).Items
  {
    forall k | k in Contents(small) ensures k in Contents(big) && Contents(big)[k] == Contents(small)[k] {
      ThinnedLookup(small.recent, big.recent, k);
      LookupIsMapOf(small.recent, k);
      LookupIsMapOf(big.recent, k);
    }
  }

  // ----- the storage object behind the trait object -----

  class CacheImpl {
    var store: Store

    constructor (initial: Store)
      ensures store == initial
    {
      store := initial;
    }

    method Get(k: Key) returns (hit: Option<Value>)
      modifies this
      ensures hit.Some? <==> k in Contents(old(store))
      ensures hit.Some? ==> hit.value == Contents(old(store))[k]
      ensures store == Apply(old(store), GetOp(k)) && Contents(store) == Contents(old(store))
    {
      GetMeaning(store, k);
      match store {
        case NoCache => hit := None;
        case HashMapCache(m) => hit := if k in m then Some(m[k]) else None;
        case LruCache(cap, es) =>
          hit := Lookup(es, k);
          if hit.Some? {
            store := LruCache(cap, [Entry(k, hit.value)] + Without(es, k));
          }
      }
    }

    method Insert(k: Key, v: Value)
      modifies this
      ensures store == Apply(old(store), InsertOp(k, v))
    {
      store := Put(store, k, v);
    }

    method Remove(k: Key)
      modifies this
      ensures store == Apply(old(store), RemoveOp(k))
    {
      store := Pop(store, k);
    }

    method Clear()
      modifies this
      ensures store == Apply(old(store), ClearOp)
    {
      store := Emptied(store);
    }
  }
}
