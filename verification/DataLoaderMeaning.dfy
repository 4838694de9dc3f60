/** What the data loader answers: batching and caching are invisible, and batches have the promised
    size. */
module DataLoaderMeaning {
  import opened Wrappers
  import opened CacheStorage
  import opened Batching
  import opened DataLoader
  import opened DataLoaderDelivery

  // ----- the reference: one uncached, unbatched load -----

  ghost predicate Agrees(m: map<Key, Value>, f: Key -> Option<Value>) {
    forall k :: k in m ==> f(k) == Some(m[k])
  }

  /** What loading exactly `ks` from `f` returns. */
  function Restrict(f: Key -> Option<Value>, ks: set<Key>): map<Key, Value> {
    map k | k in ks && f(k).Some? :: f(k).value
  }

  ghost predicate ItemsAgree(items: seq<Item>, f: Key -> Option<Value>) {
    forall i :: 0 <= i < |items| && items[i].Ok? ==> f(items[i].value.0) == Some(items[i].value.1)
  }

  /** The loader behaves as `f` in this step, and whatever is fed into the cache agrees with `f`.  The
      loader may return more pairs than it was asked for.  If `total`, it does not fail. */
  ghost predicate Faithful(w: World, s: Step, f: Key -> Option<Value>, total: bool) {
    match s
    case Complete(t, Ok(values), _) =>
      && Agrees(values, f)
      && (t < |w.tasks| ==> forall k :: k in Held(w.tasks[t]).keys && f(k).Some? ==> k in values)
    case Complete(_, Err(_), _) => !total
    case Spawn(_, items) => ItemsAgree(items, f)
    case Fire(_, items) => ItemsAgree(items, f)
    case Feed(values) => forall i :: 0 <= i < |values| ==> f(values[i].0) == Some(values[i].1)
    case _ => true
  }

  // ----- the invariant -----

  ghost predicate CacheTrue(cache: Store, f: Key -> Option<Value>) {
    Valid(cache) && Agrees(Contents(cache), f)
  }

  /** A waiter of `load_many` misses exactly the requested keys it has no cached value for. */
  ghost predicate WaiterTrue(wt: Waiter, calls: map<nat, Call>, f: Key -> Option<Value>) {
    && wt.id in calls
    && Agrees(wt.hits, f)
    && wt.hits.Keys + wt.keys == KeySet(calls[wt.id].keys)
  }

  ghost predicate QueueTrue(q: Queue, calls: map<nat, Call>, f: Key -> Option<Value>) {
    forall i :: 0 <= i < |q.pending| ==> WaiterTrue(q.pending[i], calls, f)
  }

  ghost predicate TaskTrue(t: Task, calls: map<nat, Call>, f: Key -> Option<Value>) {
    && (TaskKind(t).Once? ==> QueueTrue(Held(t), calls, f))
    && (t.Pumping? || t.Drained? ==> ItemsAgree(t.items, f))
  }

  ghost predicate EventTrue(e: Event, calls: map<nat, Call>, f: Key -> Option<Value>, total: bool) {
    e.Reply? ==>
      && e.id in calls
      && (e.result.Ok? ==> e.result.value == Restrict(f, KeySet(calls[e.id].keys)))
      && (e.result.Err? ==> !total)
  }

  /** What stream callers were sent from the cache agrees with `f`. */
  ghost predicate CallsTrue(calls: map<nat, Call>, f: Key -> Option<Value>) {
    forall id :: id in calls ==> ItemsAgree(calls[id].first, f)
  }

  ghost predicate Truthful(w: World, f: Key -> Option<Value>, total: bool) {
    && (w.entry.Some? ==> CacheTrue(w.entry.value.cache, f))
    && CallsTrue(w.calls, f)
    && QueueTrue(Waiting(w, Once), w.calls, f)
    && (forall t :: 0 <= t < |w.tasks| ==> TaskTrue(w.tasks[t], w.calls, f))
    && (forall i :: 0 <= i < |w.log| ==> EventTrue(w.log[i], w.calls, f, total))
  }

  lemma {:induction false} PutAllTrue(cache: Store, pairs: seq<(Key, Value)>, f: Key -> Option<Value>)
    requires CacheTrue(cache, f)
    requires forall i :: 0 <= i < |pairs| ==> f(pairs[i].0) == Some(pairs[i].1)
    ensures CacheTrue(PutAll(cache, pairs), f)
  {
    if pairs != [] {
      PutAllTrue(cache, pairs[..|pairs| - 1], f);
      var (k, v) := pairs[|pairs| - 1];
      PutTrue(PutAll(cache, pairs[..|pairs| - 1]), k, v, f);
    }
  }

  lemma PutTrue(cache: Store, k: Key, v: Value, f: Key -> Option<Value>)
    requires CacheTrue(cache, f) && f(k) == Some(v)
    ensures CacheTrue(Put(cache, k, v), f)
  {
    ApplyValid(cache, InsertOp(k, v));
    PutMeaning(cache, k, v);
    var m := Contents(Put(cache, k, v));
    forall x | x in m ensures f(x) == Some(m[x]) {
      assert (x, m[x]) in m.Items;
      assert (x, m[x]) in Contents(cache)[k := v].Items;
    }
  }

  lemma SortTrue(cache: Store, ks: seq<Key>, bypass: bool, f: Key -> Option<Value>)
    requires CacheTrue(cache, f)
    ensures var s := Sort(cache, ks, bypass);
            CacheTrue(s.cache, f) && Agrees(s.hits, f) && s.hits.Keys + s.misses == KeySet(ks)
  {
    SplitMeaning(cache, ks);
    SplitValid(cache, ks);
  }

  /** The answer put together for one waiter is what an uncached, unbatched load returns. */
  lemma AnswerTrue(values: map<Key, Value>, wt: Waiter, asked: set<Key>, f: Key -> Option<Value>)
    requires Agrees(wt.hits, f) && wt.hits.Keys + wt.keys == asked
    requires Agrees(values, f) && forall k :: k in wt.keys && f(k).Some? ==> k in values
    ensures Answer(values, wt) == Restrict(f, asked)
  {
    forall k ensures k in Answer(values, wt) <==> k in asked && f(k).Some? {
      assert k in asked <==> k in wt.hits.Keys || k in wt.keys;
    }
  }

  lemma RepliesTrue(values: map<Key, Value>, batch: Queue, calls: map<nat, Call>, f: Key -> Option<Value>, total: bool)
    requires QueueOk(batch) && QueueTrue(batch, calls, f)
    requires Agrees(values, f) && forall k :: k in batch.keys && f(k).Some? ==> k in values
    ensures forall j :: 0 <= j < |batch.pending| ==> EventTrue(Replies(values, batch.pending)[j], calls, f, total)
  {
    forall j | 0 <= j < |batch.pending|
      ensures EventTrue(Replies(values, batch.pending)[j], calls, f, total)
    {
      UnionKeysMembers(batch.pending);
      var wt := batch.pending[j];
      assert WaiterTrue(wt, calls, f) && wt.keys <= batch.keys;
      AnswerTrue(values, wt, KeySet(calls[wt.id].keys), f);
    }
  }

  lemma TrueWithMoreCalls(w: World, id: nat, call: Call, f: Key -> Option<Value>, total: bool)
    requires Truthful(w, f, total) && id !in w.calls && ItemsAgree(call.first, f)
    ensures Truthful(w.(calls := w.calls[id := call]), f, total)
  {
    var w' := w.(calls := w.calls[id := call]);
    forall t | 0 <= t < |w.tasks| ensures TaskTrue(w'.tasks[t], w'.calls, f) {
      assert TaskTrue(w.tasks[t], w.calls, f);
    }
  }

  lemma QueueTrueSnoc(q: Queue, wt: Waiter, calls: map<nat, Call>, f: Key -> Option<Value>, keys: set<Key>)
    requires QueueTrue(q, calls, f) && WaiterTrue(wt, calls, f)
    ensures QueueTrue(Queue(keys, q.pending + [wt]), calls, f)
  {}

  lemma AdmitTrue(core: Core, kind: Kind, id: nat, s: SplitResult, maxBatch: nat, calls: map<nat, Call>,
                  f: Key -> Option<Value>)
    requires QueueTrue(core.once, calls, f)
    requires WaiterTrue(Waiter(id, s.misses, s.hits), calls, f)
    ensures var (core', a) := AdmitSorted(core, kind, id, s, maxBatch);
            && core'.cache == s.cache && QueueTrue(core'.once, calls, f)
            && forall t :: 0 <= t < |NewTasks(kind, a)| ==> TaskTrue(NewTasks(kind, a)[t], calls, f)
  {
    if kind.Once? {
      QueueTrueSnoc(core.once, Waiter(id, s.misses, s.hits), calls, f, core.once.keys + s.misses);
    }
  }

  lemma AllHits(s: SplitResult, ks: seq<Key>, f: Key -> Option<Value>)
    requires Agrees(s.hits, f) && s.hits.Keys + s.misses == KeySet(ks)
    ensures s.misses == {} ==> s.hits == Restrict(f, KeySet(ks))
  {}

  lemma TasksTrueAppend(tasks: seq<Task>, more: seq<Task>, calls: map<nat, Call>, f: Key -> Option<Value>)
    requires forall t :: 0 <= t < |tasks| ==> TaskTrue(tasks[t], calls, f)
    requires forall t :: 0 <= t < |more| ==> TaskTrue(more[t], calls, f)
    ensures forall t :: 0 <= t < |tasks + more| ==> TaskTrue((tasks + more)[t], calls, f)
  {}

  lemma LoadedTasksTrue(w: World, cfg: Config, kind: Kind, id: nat, ks: seq<Key>, order: seq<(Key, Value)>,
                        s: SplitResult, f: Key -> Option<Value>, total: bool)
    requires Truthful(w, f, total) && id !in w.calls && Enumerates(order, s.hits)
    requires Agrees(s.hits, f) && s.hits.Keys + s.misses == KeySet(ks)
    ensures var w' := LoadSorted(w, cfg, kind, id, ks, order, s);
            && CallsTrue(w'.calls, f)
            && QueueTrue(Waiting(w', Once), w'.calls, f)
            && (forall t :: 0 <= t < |w'.tasks| ==> TaskTrue(w'.tasks[t], w'.calls, f))
  {
    var w' := LoadSorted(w, cfg, kind, id, ks, order, s);
    EnumeratesMembers(order, s.hits);
    TrueWithMoreCalls(w, id, w'.calls[id], f, total);
    AdmitTrue(CoreOf(w, cfg), kind, id, s, cfg.maxBatch, w'.calls, f);
    var a := AdmitSorted(CoreOf(w, cfg), kind, id, s, cfg.maxBatch).1;
    assert w'.tasks == w.tasks + NewTasks(kind, a);
    TasksTrueAppend(w.tasks, NewTasks(kind, a), w'.calls, f);
  }

  /** A call is answered at once exactly when it misses nothing. */
  lemma LoadedLog(w: World, cfg: Config, kind: Kind, id: nat, ks: seq<Key>, order: seq<(Key, Value)>, s: SplitResult)
    ensures var w' := LoadSorted(w, cfg, kind, id, ks, order, s);
            && w'.log == w.log + (if s.misses != {} then []
                                  else if kind.Once? then [Reply(id, Ok(s.hits))] else [Closed(id)])
            && id in w'.calls && w'.calls[id].keys == ks
            && forall other :: other in w.calls && other != id ==>
                 other in w'.calls && w'.calls[other] == w.calls[other]
  {}

  lemma LogTrueKept(log: seq<Event>, calls: map<nat, Call>, calls': map<nat, Call>, id: nat,
                    f: Key -> Option<Value>, total: bool)
    requires id !in calls && forall other :: other in calls ==> other in calls' && calls'[other] == calls[other]
    requires forall i :: 0 <= i < |log| ==> EventTrue(log[i], calls, f, total)
    ensures forall i :: 0 <= i < |log| ==> EventTrue(log[i], calls', f, total)
  {}

  lemma LogTrueAppend(log: seq<Event>, more: seq<Event>, calls: map<nat, Call>, f: Key -> Option<Value>, total: bool)
    requires forall i :: 0 <= i < |log| ==> EventTrue(log[i], calls, f, total)
    requires forall i :: 0 <= i < |more| ==> EventTrue(more[i], calls, f, total)
    ensures forall i :: 0 <= i < |log + more| ==> EventTrue((log + more)[i], calls, f, total)
  {}

  lemma LoadedLogTrue(w: World, cfg: Config, kind: Kind, id: nat, ks: seq<Key>, order: seq<(Key, Value)>,
                      s: SplitResult, f: Key -> Option<Value>, total: bool)
    requires Truthful(w, f, total) && id !in w.calls
    requires Agrees(s.hits, f) && s.hits.Keys + s.misses == KeySet(ks)
    ensures var w' := LoadSorted(w, cfg, kind, id, ks, order, s);
            forall i :: 0 <= i < |w'.log| ==> EventTrue(w'.log[i], w'.calls, f, total)
  {
    var w' := LoadSorted(w, cfg, kind, id, ks, order, s);
    LoadedLog(w, cfg, kind, id, ks, order, s);
    AllHits(s, ks, f);
    LogTrueKept(w.log, w.calls, w'.calls, id, f, total);
    var more := if s.misses != {} then [] else if kind.Once? then [Reply(id, Ok(s.hits))] else [Closed(id)];
    LogTrueAppend(w.log, more, w'.calls, f, total);
  }

  lemma LoadTruthful(w: World, cfg: Config, kind: Kind, id: nat, ks: seq<Key>, order: seq<(Key, Value)>,
                     s: SplitResult, f: Key -> Option<Value>, total: bool)
    requires Truthful(w, f, total) && CacheTrue(cfg.initial, f) && id !in w.calls && Enumerates(order, s.hits)
    requires CacheTrue(s.cache, f) && Agrees(s.hits, f) && s.hits.Keys + s.misses == KeySet(ks)
    ensures Truthful(LoadSorted(w, cfg, kind, id, ks, order, s), f, total)
  {
    LoadedTasksTrue(w, cfg, kind, id, ks, order, s, f, total);
    LoadedLogTrue(w, cfg, kind, id, ks, order, s, f, total);
    assert AdmitSorted(CoreOf(w, cfg), kind, id, s, cfg.maxBatch).0.cache == s.cache;
  }

  lemma CompleteTruthful(w: World, cfg: Config, t: nat, outcome: Result<map<Key, Value>, Error>,
                         pairs: seq<(Key, Value)>, f: Key -> Option<Value>, total: bool)
    requires Truthful(w, f, total) && Watchful(w)
    requires Enabled(w, cfg, Complete(t, outcome, pairs)) && Faithful(w, Complete(t, outcome, pairs), f, total)
    ensures Truthful(CompleteNext(w, t, outcome, pairs), f, total)
  {
    var w' := CompleteNext(w, t, outcome, pairs);
    var batch := w.tasks[t].batch;
    assert TaskOk(w.tasks[t]) && TaskTrue(w.tasks[t], w.calls, f);
    if outcome.Ok? {
      EnumeratesMembers(pairs, outcome.value);
      PutAllTrue(w.entry.value.cache, pairs, f);
      RepliesTrue(outcome.value, batch, w.calls, f, total);
      LogTrueAppend(w.log, Replies(outcome.value, batch.pending), w.calls, f, total);
    } else {
      FailuresTrue(outcome.error, batch, w.calls, f);
      LogTrueAppend(w.log, Failures(outcome.error, batch.pending), w.calls, f, total);
    }
    TaskStepShape(w, cfg, Complete(t, outcome, pairs));
    assert w'.tasks[t] == Finished;
  }

  lemma FailuresTrue(error: Error, batch: Queue, calls: map<nat, Call>, f: Key -> Option<Value>)
    requires QueueTrue(batch, calls, f)
    ensures forall j :: 0 <= j < |batch.pending| ==> EventTrue(Failures(error, batch.pending)[j], calls, f, false)
  {
    forall j | 0 <= j < |batch.pending| ensures EventTrue(Failures(error, batch.pending)[j], calls, f, false) {
      assert WaiterTrue(batch.pending[j], calls, f);
    }
  }

  lemma PumpTruthful(w: World, t: nat, f: Key -> Option<Value>, total: bool)
    requires Truthful(w, f, total)
    requires t < |w.tasks| && w.tasks[t].Pumping? && w.entry.Some? && w.tasks[t].at < |w.tasks[t].items|
    ensures Truthful(PumpNext(w, t), f, total)
  {
    assert TaskTrue(w.tasks[t], w.calls, f);
    match w.tasks[t].items[w.tasks[t].at]
    case Ok((k, v)) => PutTrue(w.entry.value.cache, k, v, f);
    case Err(_) =>
  }

  lemma CacheStepTruthful(w: World, cfg: Config, s: Step, f: Key -> Option<Value>, total: bool)
    requires Truthful(w, f, total) && CacheTrue(cfg.initial, f) && Faithful(w, s, f, total)
    requires Enabled(w, cfg, s) && (s.Feed? || s.ClearOne? || s.ClearAll?)
    ensures Truthful(Next(w, cfg, s), f, total)
  {
    var cache := CoreOf(w, cfg).cache;
    QuietStepShape(w, cfg, s);
    assert CacheTrue(cache, f);
    match s
    case Feed(values) => PutAllTrue(cache, values, f);
    case ClearOne(k) => PopTrue(cache, k, f);
    case ClearAll => ApplyValid(cache, ClearOp);
  }

  lemma PopTrue(cache: Store, k: Key, f: Key -> Option<Value>)
    requires CacheTrue(cache, f)
    ensures CacheTrue(Pop(cache, k), f)
  {
    ApplyValid(cache, RemoveOp(k));
    PopMeaning(cache, k);
  }

  lemma SpawnTruthful(w: World, t: nat, items: seq<Item>, f: Key -> Option<Value>, total: bool)
    requires Truthful(w, f, total) && ItemsAgree(items, f)
    requires t < |w.tasks| && (w.tasks[t].OwedLoad? || w.tasks[t].OwedFetch?)
    ensures Truthful(SpawnNext(w, t, items), f, total)
  {
    assert TaskTrue(w.tasks[t], w.calls, f);
  }

  lemma FireTruthful(w: World, t: nat, items: seq<Item>, f: Key -> Option<Value>, total: bool)
    requires Truthful(w, f, total) && ItemsAgree(items, f)
    requires t < |w.tasks| && w.tasks[t].Sleeping? && w.entry.Some?
    ensures Truthful(FireNext(w, t, items), f, total)
  {}

  lemma LoadStepTruthful(w: World, cfg: Config, kind: Kind, id: nat, ks: seq<Key>, order: seq<(Key, Value)>,
                         f: Key -> Option<Value>, total: bool)
    requires Truthful(w, f, total) && CacheTrue(cfg.initial, f) && Enabled(w, cfg, Load(kind, id, ks, order))
    ensures Truthful(LoadNext(w, cfg, kind, id, ks, order), f, total)
  {
    var core := CoreOf(w, cfg);
    var sorted := Sort(core.cache, ks, core.disabled || w.allDisabled);
    SortTrue(core.cache, ks, core.disabled || w.allDisabled, f);
    assert Cached(Admitted(w, cfg, kind, id, ks).1) == sorted.hits;
    LoadTruthful(w, cfg, kind, id, ks, order, sorted, f, total);
  }

  lemma StepTruthful(w: World, cfg: Config, s: Step, f: Key -> Option<Value>, total: bool)
    requires Truthful(w, f, total) && Watchful(w) && CacheTrue(cfg.initial, f)
    requires Enabled(w, cfg, s) && Faithful(w, s, f, total)
    ensures Truthful(Next(w, cfg, s), f, total)
  {
    match s
    case Load(kind, id, ks, order) => LoadStepTruthful(w, cfg, kind, id, ks, order, f, total);
    case Complete(t, outcome, pairs) => CompleteTruthful(w, cfg, t, outcome, pairs, f, total);
    case Pump(t) => PumpTruthful(w, t, f, total);
    case Spawn(t, items) => SpawnTruthful(w, t, items, f, total);
    case Fire(t, items) => FireTruthful(w, t, items, f, total);
    case EndStream(t) =>
    case Feed(_) => CacheStepTruthful(w, cfg, s, f, total);
    case ClearOne(_) => CacheStepTruthful(w, cfg, s, f, total);
    case ClearAll => CacheStepTruthful(w, cfg, s, f, total);
    case EnableCache(_) =>
    case EnableAllCache(_) =>
    case Cancel(_) =>
  }

  /** The loader and the fed values behave as `f` in step `i` of a run. */
  ghost predicate FaithfulAt(r: Run, i: nat, f: Key -> Option<Value>, total: bool)
    requires i < |r.steps| && i < |r.worlds|
  {
    Faithful(r.worlds[i], r.steps[i], f, total)
  }

  lemma {:induction false} RunTruthful(r: Run, cfg: Config, f: Key -> Option<Value>, total: bool)
    requires IsRun(r, cfg) && r.worlds[0] == START && CacheTrue(cfg.initial, f)
    requires forall i :: 0 <= i < |r.steps| ==> FaithfulAt(r, i, f, total)
    ensures Truthful(Last(r), f, total)
    decreases |r.steps|
  {
    if r.steps != [] {
      var n := |r.steps| - 1;
      FrontRun(r, cfg);
      assert FaithfulAt(r, n, f, total);
      forall i | 0 <= i < n ensures FaithfulAt(Front(r), i, f, total) {
        assert FaithfulAt(r, i, f, total);
      }
      RunTruthful(Front(r), cfg, f, total);
      ReachableSound(Front(r), cfg);
      StepTruthful(Last(Front(r)), cfg, r.steps[n], f, total);
    }
  }

  /** Under every interleaving of loads, timers, completions, streams, feeds, clears, evictions,
      cache switches and cancellations, a reply of `load_many` is `f` on the requested keys; and it is
      never an error if the loader never fails. */
  lemma Transparent(r: Run, cfg: Config, f: Key -> Option<Value>, total: bool, i: nat)
    requires IsRun(r, cfg) && r.worlds[0] == START && CacheTrue(cfg.initial, f)
    requires forall j :: 0 <= j < |r.steps| ==> FaithfulAt(r, j, f, total)
    requires i < |Last(r).log| && Last(r).log[i].Reply?
    ensures var Reply(id, result) := Last(r).log[i];
            && id in Last(r).calls
            && (result.Ok? ==> result.value == Restrict(f, KeySet(Last(r).calls[id].keys)))
            && (total ==> result.Ok?)
  {
    RunTruthful(r, cfg, f, total);
    assert EventTrue(Last(r).log[i], Last(r).calls, f, total);
  }

  /** `load_one` takes its key out of the reply of `load_many`. */
  function LoadOne(reply: Result<map<Key, Value>, Error>, k: Key): Result<Option<Value>, Error> {
    match reply
    case Ok(values) => Ok(if k in values then Some(values[k]) else None)
    case Err(e) => Err(e)
  }

  /** A successful `load_one` returns `f` at its key, however many batches have failed; and it succeeds
      if the loader never fails. */
  lemma TransparentOne(r: Run, cfg: Config, f: Key -> Option<Value>, total: bool, i: nat, k: Key)
    requires IsRun(r, cfg) && r.worlds[0] == START && CacheTrue(cfg.initial, f)
    requires forall j :: 0 <= j < |r.steps| ==> FaithfulAt(r, j, f, total)
    requires i < |Last(r).log| && Last(r).log[i].Reply?
    requires Last(r).log[i].id in Last(r).calls && Last(r).calls[Last(r).log[i].id].keys == [k]
    ensures Last(r).log[i].result.Ok? ==> LoadOne(Last(r).log[i].result, k) == Ok(f(k))
    ensures total ==> LoadOne(Last(r).log[i].result, k) == Ok(f(k))
  {
    Transparent(r, cfg, f, total, i);
    assert k in KeySet([k]);
  }

  // ----- batch sizes -----

  function Pred(n: nat): nat {
    if n == 0 then 0 else n - 1
  }

  /** Below the threshold the queue waits, and a batch that leaves at once has reached it. */
  ghost predicate QueuesSized(w: World, cfg: Config) {
    && |Waiting(w, Once).keys| <= Pred(cfg.maxBatch) && |Waiting(w, Streaming).keys| <= Pred(cfg.maxBatch)
    && forall t :: 0 <= t < |w.tasks| && w.tasks[t].OwedLoad? ==> cfg.maxBatch <= |w.tasks[t].batch.keys|
  }

  /** A batch exceeds the threshold by less than one request.  `n` bounds how many different keys one
      call asks for. */
  ghost predicate BatchesSized(w: World, cfg: Config, n: nat) {
    forall t :: 0 <= t < |w.tasks| && HasBatch(w.tasks[t]) ==> |Held(w.tasks[t]).keys| <= Pred(cfg.maxBatch) + n
  }

  lemma UnionSize(a: set<Key>, b: set<Key>)
    ensures |a + b| <= |a| + |b|
    ensures |a| <= |a + b|
  {
    assert a + b == a + (b - a);
    assert |b - a| <= |b| by { assert b == (b - a) + (b * a); }
  }

  lemma SubsetSize(a: set<Key>, b: set<Key>)
    requires a <= b
    ensures |a| <= |b|
  {
    assert b == a + (b - a);
  }

  /** The queue after one more request. */
  lemma EnqueueSize(q: Queue, wt: Waiter, maxBatch: nat)
    requires |q.keys| <= Pred(maxBatch)
    ensures var (q', action) := Enqueue(q, wt, maxBatch);
            && |q'.keys| <= Pred(maxBatch)
            && (action.ImmediateLoad? <==> maxBatch <= |q.keys + wt.keys|)
            && (action.ImmediateLoad? ==>
                  action.batch.keys == q.keys + wt.keys && |action.batch.keys| <= Pred(maxBatch) + |wt.keys|)
  {
    UnionSize(q.keys, wt.keys);
  }

  lemma AdmittedSizes(core: Core, kind: Kind, id: nat, s: SplitResult, maxBatch: nat)
    requires |core.Q(kind).keys| <= Pred(maxBatch)
    ensures var (core', a) := AdmitSorted(core, kind, id, s, maxBatch);
            && |core'.Q(kind).keys| <= Pred(maxBatch) && core'.Q(Other(kind)) == core.Q(Other(kind))
            && forall t :: 0 <= t < |NewTasks(kind, a)| && HasBatch(NewTasks(kind, a)[t]) ==>
                 maxBatch <= |Held(NewTasks(kind, a)[t]).keys| <= Pred(maxBatch) + |s.misses|
  {
    EnqueueSize(core.Q(kind), Waiter(id, s.misses, if kind.Once? then s.hits else map[]), maxBatch);
  }

  lemma LoadSized(w: World, cfg: Config, kind: Kind, id: nat, ks: seq<Key>, order: seq<(Key, Value)>, s: SplitResult,
                  n: nat)
    requires QueuesSized(w, cfg)
    ensures QueuesSized(LoadSorted(w, cfg, kind, id, ks, order, s), cfg)
    ensures BatchesSized(w, cfg, n) && |s.misses| <= n ==>
              BatchesSized(LoadSorted(w, cfg, kind, id, ks, order, s), cfg, n)
  {
    var w' := LoadSorted(w, cfg, kind, id, ks, order, s);
    var core := CoreOf(w, cfg);
    assert core.Q(kind) == Waiting(w, kind) && core.Q(Other(kind)) == Waiting(w, Other(kind));
    AdmittedSizes(core, kind, id, s, cfg.maxBatch);
    var more := NewTasks(kind, AdmitSorted(core, kind, id, s, cfg.maxBatch).1);
    assert w'.tasks == w.tasks + more;
    assert forall t :: |w.tasks| <= t < |w'.tasks| ==> w'.tasks[t] == more[t - |w.tasks|];
  }

  lemma FireSized(w: World, cfg: Config, t: nat, items: seq<Item>, n: nat)
    requires QueuesSized(w, cfg) && t < |w.tasks| && w.tasks[t].Sleeping? && w.entry.Some?
    ensures QueuesSized(FireNext(w, t, items), cfg)
    ensures BatchesSized(w, cfg, n) ==> BatchesSized(FireNext(w, t, items), cfg, n)
  {}

  lemma StepSized(w: World, cfg: Config, s: Step, n: nat)
    requires QueuesSized(w, cfg) && Enabled(w, cfg, s)
    ensures QueuesSized(Next(w, cfg, s), cfg)
    ensures BatchesSized(w, cfg, n) && (s.Load? ==> |KeySet(s.keys)| <= n) ==> BatchesSized(Next(w, cfg, s), cfg, n)
  {
    match s
    case Load(kind, id, ks, order) =>
      var core := CoreOf(w, cfg);
      var sorted := Sort(core.cache, ks, core.disabled || w.allDisabled);
      SplitMeaning(core.cache, ks);
      SubsetSize(sorted.misses, KeySet(ks));
      LoadSized(w, cfg, kind, id, ks, order, sorted, n);
    case Fire(t, items) => FireSized(w, cfg, t, items, n);
    case Spawn(_, _) => TaskStepShape(w, cfg, s);
    case Complete(_, _, _) => TaskStepShape(w, cfg, s);
    case Pump(_) => TaskStepShape(w, cfg, s);
    case EndStream(_) => TaskStepShape(w, cfg, s);
    case _ => QuietStepShape(w, cfg, s);
  }

  lemma {:induction false} RunQueuesSized(r: Run, cfg: Config)
    requires IsRun(r, cfg) && r.worlds[0] == START
    ensures QueuesSized(Last(r), cfg)
    decreases |r.steps|
  {
    if r.steps != [] {
      FrontRun(r, cfg);
      RunQueuesSized(Front(r), cfg);
      StepSized(Last(Front(r)), cfg, r.steps[|r.steps| - 1], 0);
    }
  }

  /** Over every run, a batch taken by a timer is nonempty and smaller than the threshold. */
  lemma TimerBatchSize(r: Run, cfg: Config, t: nat, items: seq<Item>)
    requires IsRun(r, cfg) && r.worlds[0] == START && 1 <= cfg.maxBatch
    requires Enabled(Last(r), cfg, Fire(t, items))
    ensures var task := Next(Last(r), cfg, Fire(t, items)).tasks[t];
            task.Finished? || (HasBatch(task) && 0 < |Held(task).keys| < cfg.maxBatch)
  {
    RunQueuesSized(r, cfg);
  }

  /** Over every run, a request makes a batch leave at once exactly when the queue reaches the threshold
      with it; the batch is the queue with the request's missing keys, and goes past the threshold by
      less than those. */
  lemma ImmediateBatchSize(r: Run, cfg: Config, kind: Kind, id: nat, ks: seq<Key>)
    requires IsRun(r, cfg) && r.worlds[0] == START && 1 <= cfg.maxBatch
    ensures var w := Last(r);
            var misses := Sort(CoreOf(w, cfg).cache, ks, CoreOf(w, cfg).disabled || w.allDisabled).misses;
            var a := Admitted(w, cfg, kind, id, ks).1;
            a.Queued? ==>
              && (a.action.ImmediateLoad? <==> cfg.maxBatch <= |Waiting(w, kind).keys + misses|)
              && (a.action.ImmediateLoad? ==>
                    && a.action.batch.keys == Waiting(w, kind).keys + misses
                    && cfg.maxBatch <= |a.action.batch.keys| <= cfg.maxBatch - 1 + |misses|)
  {
    RunQueuesSized(r, cfg);
    var w := Last(r);
    var s := Sort(CoreOf(w, cfg).cache, ks, CoreOf(w, cfg).disabled || w.allDisabled);
    assert CoreOf(w, cfg).Q(kind) == Waiting(w, kind);
    EnqueueSize(Waiting(w, kind), Waiter(id, s.misses, if kind.Once? then s.hits else map[]), cfg.maxBatch);
  }

  lemma {:induction false} RunBatchesSized(r: Run, cfg: Config, n: nat)
    requires IsRun(r, cfg) && r.worlds[0] == START
    requires forall i :: 0 <= i < |r.steps| && r.steps[i].Load? ==> |KeySet(r.steps[i].keys)| <= n
    ensures BatchesSized(Last(r), cfg, n)
    decreases |r.steps|
  {
    if r.steps != [] {
      FrontRun(r, cfg);
      RunQueuesSized(Front(r), cfg);
      RunBatchesSized(Front(r), cfg, n);
      StepSized(Last(Front(r)), cfg, r.steps[|r.steps| - 1], n);
    }
  }

  /** If no call asks for more than `n` different keys, no batch has more than
      `max_batch_size - 1 + n`; so `load_one` traffic alone never exceeds `max_batch_size`.  Every
      batch consists of exactly the keys of its waiters, and one that a caller owes has reached
      `max_batch_size`. */
  lemma BatchSizes(r: Run, cfg: Config, n: nat, t: nat)
    requires IsRun(r, cfg) && r.worlds[0] == START && 1 <= cfg.maxBatch
    requires forall i :: 0 <= i < |r.steps| && r.steps[i].Load? ==> |KeySet(r.steps[i].keys)| <= n
    requires t < |Last(r).tasks| && HasBatch(Last(r).tasks[t])
    ensures var task := Last(r).tasks[t];
            && Held(task).keys == UnionKeys(Held(task).pending)
            && 1 <= |Held(task).keys| <= cfg.maxBatch - 1 + n
            && (task.OwedLoad? ==> cfg.maxBatch <= |Held(task).keys|)
  {
    ReachableSound(r, cfg);
    RunQueuesSized(r, cfg);
    RunBatchesSized(r, cfg, n);
    assert TaskOk(Last(r).tasks[t]);
  }

  // ----- the cache saves loads -----

  /** A hash map remembers every stored pair, whatever the order they were stored in. */
  lemma {:induction false} HashMapKeepsAll(cache: Store, pairs: seq<(Key, Value)>, values: map<Key, Value>)
    requires cache.HashMapCache? && Enumerates(pairs, values)
    ensures PutAll(cache, pairs).HashMapCache?
    ensures Contents(PutAll(cache, pairs)) == Contents(cache) + values
    decreases |pairs|
  {
    if pairs != [] {
      var (k, v) := pairs[|pairs| - 1];
      HashMapKeepsAll(cache, pairs[..|pairs| - 1], values - {k});
      assert (Contents(cache) + (values - {k}))[k := v] == Contents(cache) + values;
    } else {
      assert Contents(cache) + values == Contents(cache);
    }
  }

  /** With caching on and a hash map cache, a later request for keys that are cached or were just
      loaded is answered at once, from the cache, without another batch. */
  lemma LoadedKeysNeedNoLoad(w: World, cfg: Config, t: nat, values: map<Key, Value>, pairs: seq<(Key, Value)>,
                             kind: Kind, id: nat, ks: seq<Key>)
    requires Enabled(w, cfg, Complete(t, Ok(values), pairs))
    requires w.entry.value.cache.HashMapCache? && !w.entry.value.disabled && !w.tasks[t].disabled && !w.allDisabled
    requires forall k :: k in ks ==> k in Contents(w.entry.value.cache) + values
    ensures var w' := Next(w, cfg, Complete(t, Ok(values), pairs));
            var known := Contents(w.entry.value.cache) + values;
            Admitted(w', cfg, kind, id, ks).1 == Immediate(map k | k in ks :: known[k])
  {
    var core := w.entry.value;
    HashMapKeepsAll(core.cache, pairs, values);
    SplitMeaning(PutAll(core.cache, pairs), ks);
  }

  /** With caching off, no cached value is used: every requested key is asked of the loader. */
  lemma BypassAsksForEverything(w: World, cfg: Config, kind: Kind, id: nat, ks: seq<Key>)
    requires w.allDisabled || CoreOf(w, cfg).disabled
    ensures var (core', a) := Admitted(w, cfg, kind, id, ks);
            && Cached(a) == map[] && core'.cache == CoreOf(w, cfg).cache
            && (a.Immediate? <==> ks == [])
            && (a.Queued? ==> KeySet(ks) <= core'.Q(kind).keys
                              || (a.action.ImmediateLoad? && KeySet(ks) <= a.action.batch.keys))
  {
    if ks != [] {
      assert ks[0] in KeySet(ks);
    }
  }

  // ----- what clearing, feeding and switching do to later loads -----

  /** What a call would take from the cache and what it would wait for. */
  function SplitNow(w: World, cfg: Config, ks: seq<Key>): SplitResult {
    Sort(CoreOf(w, cfg).cache, ks, CoreOf(w, cfg).disabled || w.allDisabled)
  }

  /** A step that concerns the cache only: queues, tasks, calls, answers and the other switch stay. */
  ghost predicate OnlyCache(w: World, w': World, cfg: Config) {
    && w'.tasks == w.tasks && w'.calls == w.calls && w'.log == w.log && w'.channels == w.channels
    && w'.allDisabled == w.allDisabled && w'.entry.Some?
    && w'.entry.value == CoreOf(w, cfg).(cache := w'.entry.value.cache)
  }

  /** A cleared key is missing in the next load, whatever else that asks for; all other keys are cached as
      before. */
  lemma ClearedKeyIsMissing(w: World, cfg: Config, k: Key, ks: seq<Key>)
    requires k in ks
    ensures var w' := Next(w, cfg, ClearOne(k));
            && OnlyCache(w, w', cfg) && k in SplitNow(w', cfg, ks).misses
            && Contents(CoreOf(w', cfg).cache) == Contents(CoreOf(w, cfg).cache) - {k}
  {
    var cache := CoreOf(w, cfg).cache;
    PopMeaning(cache, k);
    SplitMeaning(Pop(cache, k), ks);
  }

  /** After clearing, every key is missing. */
  lemma ClearedCacheIsEmpty(w: World, cfg: Config, ks: seq<Key>)
    ensures var w' := Next(w, cfg, ClearAll);
            && OnlyCache(w, w', cfg) && Contents(CoreOf(w', cfg).cache) == map[]
            && SplitNow(w', cfg, ks).misses == KeySet(ks)
  {
    SplitMeaning(Emptied(CoreOf(w, cfg).cache), ks);
  }

  /** Pair `i` is the last one fed for its key. */
  predicate LastFed(values: seq<(Key, Value)>, i: nat) {
    i < |values| && forall j :: i < j < |values| ==> values[j].0 != values[i].0
  }

  /** The value last fed for a key. */
  function FedValue(values: seq<(Key, Value)>, k: Key): Option<Value> {
    if values == [] then None
    else if values[|values| - 1].0 == k then Some(values[|values| - 1].1)
    else FedValue(values[..|values| - 1], k)
  }

  lemma {:induction false} FedValueIsLast(values: seq<(Key, Value)>, i: nat)
    requires LastFed(values, i)
    ensures FedValue(values, values[i].0) == Some(values[i].1)
  {
    if i < |values| - 1 {
      FedValueIsLast(values[..|values| - 1], i);
    }
  }

  /** Feeding a hash map. */
  lemma {:induction false} FedContents(cache: Store, values: seq<(Key, Value)>, k: Key)
    requires cache.HashMapCache?
    ensures PutAll(cache, values).HashMapCache?
    ensures var after := Contents(PutAll(cache, values));
            match FedValue(values, k)
            case Some(v) => k in after && after[k] == v
            case None => (k in after <==> k in Contents(cache)) && (k in after ==> after[k] == Contents(cache)[k])
  {
    if values != [] {
      FedContents(cache, values[..|values| - 1], k);
    }
  }

  /** With a hash map and caching on, a fed key is not loaded: it is answered with the last value fed. */
  lemma FedKeysNeedNoLoad(w: World, cfg: Config, values: seq<(Key, Value)>, ks: seq<Key>, i: nat)
    requires CoreOf(w, cfg).cache.HashMapCache? && !CoreOf(w, cfg).disabled && !w.allDisabled
    requires LastFed(values, i) && values[i].0 in ks
    ensures var w' := Next(w, cfg, Feed(values));
            && OnlyCache(w, w', cfg)
            && values[i].0 in SplitNow(w', cfg, ks).hits && SplitNow(w', cfg, ks).hits[values[i].0] == values[i].1
  {
    FedValueIsLast(values, i);
    FedContents(CoreOf(w, cfg).cache, values, values[i].0);
    SplitMeaning(PutAll(CoreOf(w, cfg).cache, values), ks);
  }

  /** The switch of one loader: off, the next load asks for everything; on, unless the switch of all loaders
      is off, it asks for what is not cached. */
  lemma SwitchDecides(w: World, cfg: Config, enable: bool, ks: seq<Key>)
    requires Enabled(w, cfg, EnableCache(enable))
    ensures var w' := Next(w, cfg, EnableCache(enable));
            var cached := Contents(CoreOf(w, cfg).cache);
            && w' == w.(entry := w'.entry) && w'.entry == Some(w.entry.value.(disabled := w'.entry.value.disabled))
            && SplitNow(w', cfg, ks).misses
            == (if enable && !w.allDisabled then KeySet(ks) - cached.Keys else KeySet(ks))
  {
    SplitMeaning(CoreOf(w, cfg).cache, ks);
  }

  /** The switch of all loaders likewise. */
  lemma GlobalSwitchDecides(w: World, cfg: Config, enable: bool, ks: seq<Key>)
    ensures var w' := Next(w, cfg, EnableAllCache(enable));
            var cached := Contents(CoreOf(w, cfg).cache);
            && w' == w.(allDisabled := w'.allDisabled)
            && SplitNow(w', cfg, ks).misses
            == (if enable && !CoreOf(w, cfg).disabled then KeySet(ks) - cached.Keys else KeySet(ks))
  {
    SplitMeaning(CoreOf(w, cfg).cache, ks);
  }

  predicate Bypasses(t: Task) {
    (t.Sleeping? || t.Loading? || t.Pumping?) && t.disabled
  }

  /** A spawned task remembers the switch of all loaders as it was when it was spawned, and a timer that
      goes off hands it on. */
  lemma SpawnedRemembersSwitch(w: World, cfg: Config, s: Step)
    requires Enabled(w, cfg, s) && (s.Spawn? || s.Fire?)
    ensures var t := Next(w, cfg, s).tasks[s.tid];
            && (s.Spawn? ==> (Bypasses(t) <==> w.allDisabled))
            && (s.Fire? ==> t.Finished? || (Bypasses(t) <==> Bypasses(w.tasks[s.tid])))
  {}

  /** A loaded batch is cached exactly when neither the switch that its task remembers nor the loader's own
      is off. */
  lemma BatchCachedIff(w: World, cfg: Config, t: nat, values: map<Key, Value>, pairs: seq<(Key, Value)>)
    requires Enabled(w, cfg, Complete(t, Ok(values), pairs)) && w.entry.value.cache.HashMapCache?
    ensures var before, after := w.entry.value, Next(w, cfg, Complete(t, Ok(values), pairs)).entry.value;
            Contents(after.cache) == if Bypasses(w.tasks[t]) || before.disabled then Contents(before.cache)
                                     else Contents(before.cache) + values
  {
    HashMapKeepsAll(w.entry.value.cache, pairs, values);
  }

  /** So is an item of a stream. */
  lemma ItemCachedIff(w: World, cfg: Config, t: nat, k: Key, v: Value)
    requires Enabled(w, cfg, Pump(t)) && w.tasks[t].items[w.tasks[t].at] == Ok((k, v))
    requires w.entry.value.cache.HashMapCache?
    ensures var before, after := w.entry.value, Next(w, cfg, Pump(t)).entry.value;
            Contents(after.cache) == if Bypasses(w.tasks[t]) || before.disabled then Contents(before.cache)
                                     else Contents(before.cache)[k := v]
  {}
}
