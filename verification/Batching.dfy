/** The record of waiting requests that every caller of a data loader shares, and the critical
    sections that run while its lock is held. */
module Batching {
  import opened Wrappers
  import opened CacheStorage

  type Error(==, 0, !new)

  /** A queued request: the keys it still needs, and the pairs it already took from the cache.
      A stream request has already been sent its cached pairs, so `hits` is empty for it. */
  datatype Waiter = Waiter(id: nat, keys: set<Key>, hits: map<Key, Value>)

  /** Keys not yet handed to the loader together with the requests waiting for them.  A taken queue
      is a batch. */
  datatype Queue = Queue(keys: set<Key>, pending: seq<Waiter>)

  const EMPTY_QUEUE := Queue({}, [])

  datatype Action = ImmediateLoad(batch: Queue) | StartFetch | Delay

  datatype Kind = Once | Streaming

  datatype Core = Core(once: Queue, streaming: Queue, cache: Store, disabled: bool) {
    function Q(kind: Kind): Queue {
      if kind.Once? then once else streaming
    }

    function WithQ(kind: Kind, q: Queue): Core {
      if kind.Once? then this.(once := q) else this.(streaming := q)
    }
  }

  /** One message to a caller: the single reply of `load_many`, or the end of a stream. */
  datatype Event = Reply(id: nat, result: Result<map<Key, Value>, Error>) | Closed(id: nat)

  // ----- the union of the waiting key sets -----

  function UnionKeys(ps: seq<Waiter>): set<Key> {
    if ps == [] then {} else UnionKeys(ps[..|ps| - 1]) + ps[|ps| - 1].keys
  }

  lemma {:induction false} UnionKeysMembers(ps: seq<Waiter>)
    ensures forall i :: 0 <= i < |ps| ==> ps[i].keys <= UnionKeys(ps)
    ensures forall k :: k in UnionKeys(ps) ==> exists i :: 0 <= i < |ps| && k in ps[i].keys
  {
    if ps != [] {
      var qs := ps[..|ps| - 1];
      UnionKeysMembers(qs);
      forall k | k in UnionKeys(ps) ensures exists i :: 0 <= i < |ps| && k in ps[i].keys {
        if k in UnionKeys(qs) {
          var i :| 0 <= i < |qs| && k in qs[i].keys;
          assert k in ps[i].keys;
        }
      }
      forall i | 0 <= i < |ps| ensures ps[i].keys <= UnionKeys(ps) {
        if i < |qs| { assert qs[i] == ps[i]; }
      }
    }
  }

  // ----- splitting a request into cached and missing keys -----

  function KeySet(ks: seq<Key>): set<Key> {
    set k | k in ks
  }

  datatype SplitResult = SplitResult(misses: set<Key>, hits: map<Key, Value>, cache: Store)

  /** Look every key up in turn; a hit is remembered with its value, a miss has to be loaded. */
  function Split(cache: Store, ks: seq<Key>): SplitResult {
    if ks == [] then SplitResult({}, map[], cache)
    else
      var before := Split(cache, ks[..|ks| - 1]);
      var k := ks[|ks| - 1];
      match Get(before.cache, k)
      case (Some(v), c) => SplitResult(before.misses, before.hits[k := v], c)
      case (None, c) => SplitResult(before.misses + {k}, before.hits, c)
  }

  /** The order of the lookups and repeated keys do not matter: hits are the requested keys that the
      cache held at the start, and looking them up forgets nothing. */
  lemma {:induction false} SplitMeaning(cache: Store, ks: seq<Key>)
    ensures Split(cache, ks).hits == map k | k in ks && k in Contents(cache) :: Contents(cache)[k]
    ensures Split(cache, ks).misses == set k | k in ks && k !in Contents(cache)
    ensures Contents(Split(cache, ks).cache) == Contents(cache)
  {
    if ks != [] {
      var ks', k := ks[..|ks| - 1], ks[|ks| - 1];
      SplitMeaning(cache, ks');
      GetMeaning(Split(cache, ks').cache, k);
      assert forall x :: x in ks <==> x in ks' || x == k;
    }
  }

  lemma {:induction false} SplitValid(cache: Store, ks: seq<Key>)
    requires Valid(cache)
    ensures Valid(Split(cache, ks).cache)
  {
    if ks != [] {
      SplitValid(cache, ks[..|ks| - 1]);
      ApplyValid(Split(cache, ks[..|ks| - 1]).cache, GetOp(ks[|ks| - 1]));
    }
  }

  /** With caching off, every key is missing and the cache is not touched. */
  function Sort(cache: Store, ks: seq<Key>, bypass: bool): SplitResult {
    if bypass then SplitResult(KeySet(ks), map[], cache) else Split(cache, ks)
  }

  // ----- queueing -----

  /** The queue after one more request, and what its caller has to do next. */
  function Enqueue(q: Queue, w: Waiter, maxBatch: nat): (Queue, Action) {
    var q' := Queue(q.keys + w.keys, q.pending + [w]);
    if maxBatch <= |q'.keys| then (EMPTY_QUEUE, ImmediateLoad(q'))
    else (q', if q'.keys != {} && q.keys == {} then StartFetch else Delay)
  }

  // ----- storing a loaded batch and answering it -----

  function PutAll(cache: Store, pairs: seq<(Key, Value)>): Store {
    if pairs == [] then cache
    else Put(PutAll(cache, pairs[..|pairs| - 1]), pairs[|pairs| - 1].0, pairs[|pairs| - 1].1)
  }

  /** `pairs` lists a hash map in some iteration order. */
  ghost predicate Enumerates<X(!new), Y(!new)>(pairs: seq<(X, Y)>, m: map<X, Y>) {
    if pairs == [] then m == map[]
    else
      var (x, y) := pairs[|pairs| - 1];
      x in m && m[x] == y && Enumerates(pairs[..|pairs| - 1], m - {x})
  }

  function Answer(values: map<Key, Value>, w: Waiter): map<Key, Value> {
    w.hits + map k | k in w.keys && k in values :: values[k]
  }

  function Replies(values: map<Key, Value>, ws: seq<Waiter>): seq<Event> {
    seq(|ws|, i requires 0 <= i < |ws| => Reply(ws[i].id, Ok(Answer(values, ws[i]))))
  }

  function Failures(err: Error, ws: seq<Waiter>): seq<Event> {
    seq(|ws|, i requires 0 <= i < |ws| => Reply(ws[i].id, Err(err)))
  }

  /** What the locked part of a load hands back: an answer at once, or a place in the queue. */
  datatype Admission = Immediate(values: map<Key, Value>) | Queued(action: Action, cached: map<Key, Value>)

  /** The locked part of `load_many` and of `load_many_stream`. */
  function Admit(core: Core, kind: Kind, id: nat, ks: seq<Key>, bypass: bool, maxBatch: nat): (Core, Admission) {
    AdmitSorted(core, kind, id, Sort(core.cache, ks, core.disabled || bypass), maxBatch)
  }

  function AdmitSorted(core: Core, kind: Kind, id: nat, s: SplitResult, maxBatch: nat): (Core, Admission) {
    if s.misses == {} then (core.(cache := s.cache), Immediate(s.hits))
    else
      var w := Waiter(id, s.misses, if kind.Once? then s.hits else map[]);
      var (q, action) := Enqueue(core.Q(kind), w, maxBatch);
      (core.(cache := s.cache).WithQ(kind, q), Queued(action, s.hits))
  }

  class Requests {
    var keys: set<Key>
    var pending: seq<Waiter>
    var streamKeys: set<Key>
    var streamPending: seq<Waiter>
    const cacheStorage: CacheImpl
    var disableCache: bool

    ghost function Abs(): Core
      reads this, cacheStorage
    {
      Core(Queue(keys, pending), Queue(streamKeys, streamPending), cacheStorage.store, disableCache)
    }

    constructor (initial: Store)
      ensures fresh(cacheStorage)
      ensures Abs() == Core(EMPTY_QUEUE, EMPTY_QUEUE, initial, false)
    {
      keys, pending, streamKeys, streamPending := {}, [], {}, [];
      disableCache := false;
      cacheStorage := new CacheImpl(initial);
    }

    method Take() returns (batch: Queue)
      modifies this
      ensures batch == old(Abs()).once
      ensures Abs() == old(Abs()).(once := EMPTY_QUEUE)
    {
      batch := Queue(keys, pending);
      keys, pending := {}, [];
    }

    method TakeStream() returns (batch: Queue)
      modifies this
      ensures batch == old(Abs()).streaming
      ensures Abs() == old(Abs()).(streaming := EMPTY_QUEUE)
    {
      batch := Queue(streamKeys, streamPending);
      streamKeys, streamPending := {}, [];
    }

    /** The lookup loop both kinds of load start with. */
    method SplitKeys(ks: seq<Key>, bypass: bool) returns (misses: set<Key>, hits: map<Key, Value>)
      modifies cacheStorage
      ensures SplitResult(misses, hits, cacheStorage.store)
           == Sort(old(cacheStorage.store), ks, disableCache || bypass)
    {
      misses, hits := {}, map[];
      if disableCache || bypass {
        misses := set k | k in ks;
      } else {
        for i := 0 to |ks|
          invariant SplitResult(misses, hits, cacheStorage.store) == Split(old(cacheStorage.store), ks[..i])
        {
          assert ks[..i + 1][..i] == ks[..i];
          var hit := cacheStorage.Get(ks[i]);
          GetMeaning(Split(old(cacheStorage.store), ks[..i]).cache, ks[i]);
          if hit.Some? {
            hits := hits[ks[i] := hit.value];
          } else {
            misses := misses + {ks[i]};
          }
        }
        assert ks[..|ks|] == ks;
      }
    }

    method LoadMany(id: nat, ks: seq<Key>, bypass: bool, maxBatch: nat) returns (admission: Admission)
      modifies this, cacheStorage
      ensures (Abs(), admission) == Admit(old(Abs()), Once, id, ks, bypass, maxBatch)
    {
      var prevCount := |keys|;
      var misses, hits := SplitKeys(ks, bypass);
      if misses == {} {
        return Immediate(hits);
      }
      keys := keys + misses;
      pending := pending + [Waiter(id, misses, hits)];
      if |keys| >= maxBatch {
        var batch := Take();
        admission := Queued(ImmediateLoad(batch), hits);
      } else {
        admission := Queued(if keys != {} && prevCount == 0 then StartFetch else Delay, hits);
      }
    }

    method LoadManyStream(id: nat, ks: seq<Key>, bypass: bool, maxBatch: nat) returns (admission: Admission)
      modifies this, cacheStorage
      ensures (Abs(), admission) == Admit(old(Abs()), Streaming, id, ks, bypass, maxBatch)
    {
      var prevCount := |streamKeys|;
      var misses, hits := SplitKeys(ks, bypass);
      if misses == {} {
        return Immediate(hits);
      }
      streamKeys := streamKeys + misses;
      streamPending := streamPending + [Waiter(id, misses, map[])];
      if |streamKeys| >= maxBatch {
        var batch := TakeStream();
        admission := Queued(ImmediateLoad(batch), hits);
      } else {
        admission := Queued(if streamKeys != {} && prevCount == 0 then StartFetch else Delay, hits);
      }
    }

    /** The cache-update loop of `do_load`, in whatever order the hash map yields its pairs. */
    method StoreAll(values: map<Key, Value>) returns (ghost pairs: seq<(Key, Value)>)
      modifies cacheStorage
      ensures Enumerates(pairs, values)
      ensures cacheStorage.store == PutAll(old(cacheStorage.store), pairs)
    {
      pairs := [];
      var rest := values.Keys;
      assert values - rest == map[];
      while rest != {}
        invariant rest <= values.Keys
        invariant Enumerates(pairs, values - rest)
        invariant cacheStorage.store == PutAll(old(cacheStorage.store), pairs)
        decreases |rest|
      {
        var k :| k in rest;
        cacheStorage.Insert(k, values[k]);
        EnumeratesStep(pairs, values, rest, k);
        assert (pairs + [(k, values[k])])[..|pairs|] == pairs;
        pairs := pairs + [(k, values[k])];
        rest := rest - {k};
      }
      assert values - {} == values;
    }

    /** The success arm of `do_load`: store the values unless caching is off, then answer every
        waiter of the batch. */
    method CompleteLoad(values: map<Key, Value>, waiters: seq<Waiter>, disabled: bool)
      returns (events: seq<Event>, ghost pairs: seq<(Key, Value)>)
      modifies cacheStorage
      ensures Enumerates(pairs, values)
      ensures Abs() == old(Abs()).(cache := if disableCache || disabled then old(Abs()).cache
                                            else PutAll(old(Abs()).cache, pairs))
      ensures events == Replies(values, waiters)
    {
      if disableCache || disabled {
        pairs := SomeEnumeration(values, values.Keys);
        assert values - (values.Keys - values.Keys) == values;
      } else {
        pairs := StoreAll(values);
      }
      events := AnswerAll(values, waiters);
    }

    /** The success arm of one stream item in `do_load_stream`. */
    method StoreItem(k: Key, v: Value, disabled: bool)
      modifies cacheStorage
      ensures Abs() == old(Abs()).(cache := if disableCache || disabled then old(Abs()).cache
                                            else Put(old(Abs()).cache, k, v))
    {
      if !disabled {
        if !disableCache {
          cacheStorage.Insert(k, v);
        }
      }
    }

    method FeedMany(values: seq<(Key, Value)>)
      modifies cacheStorage
      ensures Abs() == old(Abs()).(cache := PutAll(old(Abs()).cache, values))
    {
      for i := 0 to |values|
        invariant cacheStorage.store == PutAll(old(cacheStorage.store), values[..i])
      {
        assert values[..i + 1][..i] == values[..i];
        cacheStorage.Insert(values[i].0, values[i].1);
      }
      assert values[..|values|] == values;
    }

    method ClearOne(k: Key)
      modifies cacheStorage
      ensures Abs() == old(Abs()).(cache := Pop(old(Abs()).cache, k))
    {
      cacheStorage.Remove(k);
    }

    method ClearAll()
      modifies cacheStorage
      ensures Abs() == old(Abs()).(cache := Emptied(old(Abs()).cache))
    {
      cacheStorage.Clear();
    }

    method EnableCache(enable: bool)
      modifies this
      ensures Abs() == old(Abs()).(disabled := !enable)
    {
      disableCache := !enable;
    }
  }

  lemma EnumeratesStep<X(!new), Y(!new)>(pairs: seq<(X, Y)>, m: map<X, Y>, rest: set<X>, x: X)
    requires x in rest && rest <= m.Keys && Enumerates(pairs, m - rest)
    ensures Enumerates(pairs + [(x, m[x])], m - (rest - {x}))
  {
    assert (pairs + [(x, m[x])])[..|pairs|] == pairs;
    assert m - (rest - {x}) - {x} == m - rest;
  }

  /** An enumeration of a map has one pair for each of its keys. */
  lemma {:induction false} EnumeratesMembers<X(!new), Y(!new)>(pairs: seq<(X, Y)>, m: map<X, Y>)
    requires Enumerates(pairs, m)
    ensures |pairs| == |m|
    ensures forall i :: 0 <= i < |pairs| ==> pairs[i].0 in m && m[pairs[i].0] == pairs[i].1
    ensures forall x :: x in m ==> (x, m[x]) in pairs
  {
    if pairs != [] {
      var (x, y) := pairs[|pairs| - 1];
      EnumeratesMembers(pairs[..|pairs| - 1], m - {x});
      assert m.Keys == (m - {x}).Keys + {x};
      assert |m| == |m.Keys|;
      forall z | z in m ensures (z, m[z]) in pairs {
        if z != x { assert (z, (m - {x})[z]) in pairs[..|pairs| - 1]; }
      }
    }
  }

  /** Every map can be enumerated. */
  lemma {:induction false} SomeEnumeration<X(!new), Y(!new)>(m: map<X, Y>, todo: set<X>) returns (pairs: seq<(X, Y)>)
    requires todo <= m.Keys
    ensures Enumerates(pairs, m - (m.Keys - todo))
    decreases |todo|
  {
    if todo == {} {
      pairs := [];
      assert m - m.Keys == map[];
    } else {
      var x :| x in todo;
      pairs := SomeEnumeration(m, todo - {x});
      var rest := m.Keys - (todo - {x});
      EnumeratesStep(pairs, m, rest, x);
      assert rest - {x} == m.Keys - todo;
      pairs := pairs + [(x, m[x])];
    }
  }

  lemma AnswerOneMore(values: map<Key, Value>, w: Waiter, done: set<Key>, k: Key)
    ensures var before := Answer(values, w.(keys := done));
            Answer(values, w.(keys := done + {k})) == if k in values then before[k := values[k]] else before
  {}

  /** The inner response loop: the keys of one waiter, in whatever order the hash set yields them. */
  method AnswerOne(values: map<Key, Value>, w: Waiter) returns (res: map<Key, Value>)
    ensures res == Answer(values, w)
  {
    res := w.hits;
    var rest := w.keys;
    ghost var done := {};
    assert res == Answer(values, w.(keys := done));
    while rest != {}
      invariant done + rest == w.keys
      invariant res == Answer(values, w.(keys := done))
      decreases |rest|
    {
      var k :| k in rest;
      AnswerOneMore(values, w, done, k);
      if k in values {
        res := res[k := values[k]];
      }
      rest, done := rest - {k}, done + {k};
    }
    assert done == w.keys;
  }

  /** The response loop of `do_load`: each waiter gets its cached pairs plus the loaded pairs it asked
      for, in the order the waiters queued. */
  method AnswerAll(values: map<Key, Value>, waiters: seq<Waiter>) returns (events: seq<Event>)
    ensures events == Replies(values, waiters)
  {
    events := [];
    for i := 0 to |waiters|
      invariant |events| == i
      invariant forall j :: 0 <= j < i ==> events[j] == Replies(values, waiters)[j]
    {
      var res := AnswerOne(values, waiters[i]);
      events := events + [Reply(waiters[i].id, Ok(res))];
    }
  }

  /** The failure arm of `do_load`. */
  method FailAll(err: Error, waiters: seq<Waiter>) returns (events: seq<Event>)
    ensures events == Failures(err, waiters)
  {
    events := [];
    for i := 0 to |waiters|
      invariant |events| == i
      invariant forall j :: 0 <= j < i ==> events[j] == Reply(waiters[j].id, Err(err))
    {
      events := events + [Reply(waiters[i].id, Err(err))];
    }
  }
}
