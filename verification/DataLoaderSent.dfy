/** What stream callers are sent, told from the steps of a run: the items are those that the loader
    returned in the step that asked it. */
module DataLoaderSent {
  import opened Wrappers
  import opened CacheStorage
  import opened Batching
  import opened DataLoader
  import opened DataLoaderDelivery
  import opened DataLoaderMeaning
  import opened DataLoaderStreams

  // ----- where a stream starts -----

  /** Step `j` asks the loader for the stream of a batch: a caller's task is spawned, or a timer takes what
      is waiting. */
  ghost predicate Asks(r: Run, j: nat, t: nat, batch: Queue) {
    && j < |r.steps| && j < |r.worlds| && AsksIn(r.worlds[j], r.steps[j], t, batch)
  }

  ghost predicate AsksIn(w: World, s: Step, t: nat, batch: Queue) {
    && t < |w.tasks|
    && match s
       case Spawn(u, _) => u == t && w.tasks[t] == OwedLoad(Streaming, batch)
       case Fire(u, _) =>
         && u == t && w.tasks[t].Sleeping? && w.tasks[t].kind.Streaming?
         && batch == Waiting(w, Streaming) && batch.keys != {}
       case _ => false
  }

  predicate IsStream(t: Task, batch: Queue, items: seq<Item>) {
    (t.Pumping? || t.Drained?) && t.batch == batch && t.items == items
  }

  lemma AskedStream(w: World, cfg: Config, s: Step, t: nat, batch: Queue)
    requires Enabled(w, cfg, s) && AsksIn(w, s, t, batch)
    ensures t < |Next(w, cfg, s).tasks| && IsStream(Next(w, cfg, s).tasks[t], batch, s.items)
  {}

  /** A task keeps its stream for good. */
  lemma StreamStays(w: World, cfg: Config, s: Step, t: nat)
    requires Enabled(w, cfg, s) && t < |w.tasks| && (w.tasks[t].Pumping? || w.tasks[t].Drained?)
    ensures t < |Next(w, cfg, s).tasks| && IsStream(Next(w, cfg, s).tasks[t], w.tasks[t].batch, w.tasks[t].items)
  {
    if IsQuiet(s) {
      QuietStepShape(w, cfg, s);
    }
  }

  /** No stream comes from anywhere else. */
  lemma StreamWasAsked(w: World, cfg: Config, s: Step, t: nat)
    requires Enabled(w, cfg, s) && t < |Next(w, cfg, s).tasks|
    requires Next(w, cfg, s).tasks[t].Pumping? || Next(w, cfg, s).tasks[t].Drained?
    requires t < |w.tasks| ==> !w.tasks[t].Pumping? && !w.tasks[t].Drained?
    ensures AsksIn(w, s, t, Next(w, cfg, s).tasks[t].batch)
    ensures Next(w, cfg, s).tasks[t].items == s.items
  {
    if s.Load? {
      var core := CoreOf(w, cfg);
      LoadAddsOwed(w, cfg, s.kind, s.id, s.keys, s.order, Sort(core.cache, s.keys, core.disabled || w.allDisabled));
    } else if IsQuiet(s) {
      QuietStepShape(w, cfg, s);
    } else if !s.Fire? {
      TaskStepShape(w, cfg, s);
    }
  }

  lemma LoadAddsOwed(w: World, cfg: Config, kind: Kind, id: nat, ks: seq<Key>, order: seq<(Key, Value)>,
                     s: SplitResult)
    ensures var w' := LoadSorted(w, cfg, kind, id, ks, order, s);
            && w.tasks <= w'.tasks
            && forall t :: |w.tasks| <= t < |w'.tasks| ==> w'.tasks[t].OwedLoad? || w'.tasks[t].OwedFetch?
  {}

  lemma {:induction false} AskedStays(r: Run, cfg: Config, j: nat, t: nat, batch: Queue, m: nat)
    requires IsRun(r, cfg) && Asks(r, j, t, batch) && j < m <= |r.steps|
    ensures t < |r.worlds[m].tasks| && IsStream(r.worlds[m].tasks[t], batch, r.steps[j].items)
    decreases m
  {
    assert StepAt(r, cfg, m - 1);
    if m == j + 1 {
      AskedStream(r.worlds[j], cfg, r.steps[j], t, batch);
    } else {
      AskedStays(r, cfg, j, t, batch, m - 1);
      StreamStays(r.worlds[m - 1], cfg, r.steps[m - 1], t);
    }
  }

  lemma {:induction false} StreamOrigin(r: Run, cfg: Config, t: nat) returns (j: nat)
    requires IsRun(r, cfg) && r.worlds[0] == START
    requires t < |Last(r).tasks| && (Last(r).tasks[t].Pumping? || Last(r).tasks[t].Drained?)
    ensures Asks(r, j, t, Last(r).tasks[t].batch) && r.steps[j].items == Last(r).tasks[t].items
    decreases |r.steps|
  {
    var n := |r.steps| - 1;
    FrontRun(r, cfg);
    var w, s := Last(Front(r)), r.steps[n];
    if t < |w.tasks| && (w.tasks[t].Pumping? || w.tasks[t].Drained?) {
      StreamStays(w, cfg, s, t);
      j := StreamOrigin(Front(r), cfg, t);
      assert Front(r).steps[j] == r.steps[j] && Front(r).worlds[j] == r.worlds[j];
    } else {
      StreamWasAsked(w, cfg, s, t);
      j := n;
    }
  }

  // ----- what has been sent -----

  /** The first `m` steps of a run. */
  function Prefix(r: Run, m: nat): Run
    requires |r.worlds| == |r.steps| + 1 && m <= |r.steps|
  {
    Run(r.worlds[..m + 1], r.steps[..m])
  }

  lemma PrefixRun(r: Run, cfg: Config, m: nat)
    requires IsRun(r, cfg) && m <= |r.steps|
    ensures IsRun(Prefix(r, m), cfg) && Prefix(r, m).worlds[0] == r.worlds[0] && Last(Prefix(r, m)) == r.worlds[m]
  {
    forall i | 0 <= i < m ensures StepAt(Prefix(r, m), cfg, i) {
      assert StepAt(r, cfg, i);
    }
  }

  lemma {:induction false} SoFarWithinStream(items: seq<Item>, at: nat)
    requires at <= |items| && NoError(items[..at])
    ensures items[..at] <= UpToError(items)
    decreases at
  {
    if at > 0 {
      assert items[..at][0] == items[0] && items[1..][..at - 1] == items[..at][1..];
      SoFarWithinStream(items[1..], at - 1);
      assert items[..at] == [items[0]] + items[1..][..at - 1];
    }
  }

  lemma WantedPrefix(a: seq<Item>, b: seq<Item>, keys: set<Key>)
    requires a <= b
    ensures Wanted(a, keys) <= Wanted(b, keys)
  {
    WantedConcat(a, b[|a|..], keys);
    assert b == a + b[|a|..];
  }

  /** What a caller is to be sent of a stream: its cached pairs, then what it waits for, up to and including
      the first error. */
  function Due(call: Call, keys: set<Key>, items: seq<Item>): seq<Item> {
    call.first + Wanted(UpToError(items), keys)
  }

  /** A caller that waits has been sent its requested keys' cached pairs and waits for the others. */
  ghost predicate WaitsForRest(call: Call, keys: set<Key>) {
    FirstKeys(call.first) !! keys && FirstKeys(call.first) + keys == KeySet(call.keys)
  }

  /** Over every run: if step `j` asks the loader for a stream and the loader returns `items`, then ever
      after each caller of that batch has been sent a prefix of its due, and once its stream is closed
      exactly its due. */
  lemma StreamDelivered(r: Run, cfg: Config, j: nat, t: nat, batch: Queue, m: nat, i: nat)
    requires IsRun(r, cfg) && r.worlds[0] == START
    requires Asks(r, j, t, batch) && j < m <= |r.steps| && i < |batch.pending|
    ensures var w, wt := r.worlds[m], batch.pending[i];
            && wt.id in w.calls && wt.id in w.channels && WaitsForRest(w.calls[wt.id], wt.keys)
            && w.channels[wt.id] <= Due(w.calls[wt.id], wt.keys, r.steps[j].items)
            && (Answered(w, wt.id) ==> w.channels[wt.id] == Due(w.calls[wt.id], wt.keys, r.steps[j].items))
  {
    AskedStays(r, cfg, j, t, batch, m);
    PrefixRun(r, cfg, m);
    RunServed(Prefix(r, m), cfg);
    ReachableSound(Prefix(r, m), cfg);
    DeliveredByTask(r.worlds[m], t, i);
  }

  lemma DeliveredByTask(w: World, t: nat, i: nat)
    requires Sound(w) && StreamsServed(w) && t < |w.tasks| && (w.tasks[t].Pumping? || w.tasks[t].Drained?)
    requires i < |w.tasks[t].batch.pending|
    ensures var task, wt := w.tasks[t], w.tasks[t].batch.pending[i];
            && wt.id in w.calls && wt.id in w.channels && WaitsForRest(w.calls[wt.id], wt.keys)
            && w.channels[wt.id] <= Due(w.calls[wt.id], wt.keys, task.items)
            && (Answered(w, wt.id) ==> w.channels[wt.id] == Due(w.calls[wt.id], wt.keys, task.items))
  {
    var task, wt := w.tasks[t], w.tasks[t].batch.pending[i];
    assert TaskServed(w, task) && Served(w, Audience(task)[i], SoFar(task));
    if task.Drained? {
      EndedIsUpToError(task.items, task.at);
    } else {
      SoFarWithinStream(task.items, task.at);
      WantedPrefix(task.items[..task.at], UpToError(task.items), wt.keys);
      NotYetAnswered(w, t, i);
    }
  }

  lemma NotYetAnswered(w: World, t: nat, i: nat)
    requires Sound(w) && t < |w.tasks| && w.tasks[t].Pumping? && i < |w.tasks[t].batch.pending|
    ensures !Answered(w, w.tasks[t].batch.pending[i].id)
  {
    var id := w.tasks[t].batch.pending[i].id;
    assert At(w, InTask(t), id);
    assert forall k: nat :: k < |w.log| ==> (w.log[k].id == id <==> At(w, InLog(k), id));
  }

  // ----- every closed stream -----

  /** A closed caller was served wholly from the cache, or is in the batch of a stream that has ended. */
  ghost predicate ClosedExplained(w: World) {
    forall k :: 0 <= k < |w.log| && w.log[k].Closed? ==> Explained(w, w.log[k].id)
  }

  ghost predicate Explained(w: World, id: nat) {
    || (id in w.calls && WhollyCached(w.calls[id]))
    || exists t :: 0 <= t < |w.tasks| && w.tasks[t].Drained? && Among(id, w.tasks[t].batch.pending)
  }

  /** Ended streams and calls are never forgotten. */
  lemma ExplainedStays(w: World, cfg: Config, s: Step, id: nat)
    requires Enabled(w, cfg, s) && Explained(w, id)
    ensures Explained(Next(w, cfg, s), id)
  {
    var w' := Next(w, cfg, s);
    if t :| 0 <= t < |w.tasks| && w.tasks[t].Drained? && Among(id, w.tasks[t].batch.pending) {
      DrainedStays(w, cfg, s, t);
      assert w'.tasks[t].Drained?;
    } else {
      CallStays(w, cfg, s, id);
    }
  }

  lemma DrainedStays(w: World, cfg: Config, s: Step, t: nat)
    requires Enabled(w, cfg, s) && t < |w.tasks| && w.tasks[t].Drained?
    ensures t < |Next(w, cfg, s).tasks| && Next(w, cfg, s).tasks[t] == w.tasks[t]
  {
    if IsQuiet(s) {
      QuietStepShape(w, cfg, s);
    }
  }

  lemma CallStays(w: World, cfg: Config, s: Step, id: nat)
    requires Enabled(w, cfg, s) && id in w.calls
    ensures id in Next(w, cfg, s).calls && Next(w, cfg, s).calls[id] == w.calls[id]
  {
    if IsQuiet(s) {
      QuietStepShape(w, cfg, s);
    }
  }

  /** A new call is explained by itself, and takes nothing away. */
  lemma NewCallExplained(w: World, w': World, id: nat, more: seq<Event>)
    requires ClosedExplained(w) && w.tasks <= w'.tasks && w'.log == w.log + more
    requires forall x :: x in w.calls ==> x in w'.calls && w'.calls[x] == w.calls[x]
    requires forall k :: 0 <= k < |more| && more[k].Closed? ==> Explained(w', more[k].id)
    ensures ClosedExplained(w')
  {
    forall k | 0 <= k < |w.log| && w.log[k].Closed? ensures Explained(w', w.log[k].id) {
      assert Explained(w, w.log[k].id);
      if t :| 0 <= t < |w.tasks| && w.tasks[t].Drained? && Among(w.log[k].id, w.tasks[t].batch.pending) {
        assert w'.tasks[t] == w.tasks[t];
      }
    }
  }

  lemma LoadExplained(w: World, cfg: Config, kind: Kind, id: nat, ks: seq<Key>, order: seq<(Key, Value)>,
                      s: SplitResult)
    requires ClosedExplained(w) && id !in w.calls
    requires Enumerates(order, s.hits) && s.hits.Keys + s.misses == KeySet(ks)
    ensures ClosedExplained(LoadSorted(w, cfg, kind, id, ks, order, s))
  {
    LoadedLog(w, cfg, kind, id, ks, order, s);
    LoadAddsOwed(w, cfg, kind, id, ks, order, s);
    ClosedAtOnce(w, cfg, kind, id, ks, order, s);
    NewCallExplained(w, LoadSorted(w, cfg, kind, id, ks, order, s), id,
                     if s.misses != {} then []
                     else if kind.Once? then [Reply(id, Ok(s.hits))] else [Closed(id)]);
  }

  lemma LoadStepExplained(w: World, cfg: Config, kind: Kind, id: nat, ks: seq<Key>, order: seq<(Key, Value)>)
    requires ClosedExplained(w) && Enabled(w, cfg, Load(kind, id, ks, order))
    ensures ClosedExplained(LoadNext(w, cfg, kind, id, ks, order))
  {
    var core := CoreOf(w, cfg);
    SortCovers(core.cache, ks, core.disabled || w.allDisabled);
    LoadOrder(w, cfg, kind, id, ks, order);
    LoadExplained(w, cfg, kind, id, ks, order, Sort(core.cache, ks, core.disabled || w.allDisabled));
  }

  lemma SortCovers(cache: Store, ks: seq<Key>, bypass: bool)
    ensures Sort(cache, ks, bypass).hits.Keys + Sort(cache, ks, bypass).misses == KeySet(ks)
  {
    SplitMeaning(cache, ks);
  }

  lemma LoadOrder(w: World, cfg: Config, kind: Kind, id: nat, ks: seq<Key>, order: seq<(Key, Value)>)
    requires Enabled(w, cfg, Load(kind, id, ks, order))
    ensures id !in w.calls
    ensures Enumerates(order, Sort(CoreOf(w, cfg).cache, ks, CoreOf(w, cfg).disabled || w.allDisabled).hits)
  {}

  lemma ClosedAtOnce(w: World, cfg: Config, kind: Kind, id: nat, ks: seq<Key>, order: seq<(Key, Value)>,
                     s: SplitResult)
    requires Enumerates(order, s.hits) && s.hits.Keys + s.misses == KeySet(ks)
    ensures var w' := LoadSorted(w, cfg, kind, id, ks, order, s);
            id in w'.calls && (s.misses == {} && kind.Streaming? ==> WhollyCached(w'.calls[id]))
  {
    LoadedCall(w, cfg, kind, id, ks, order, s);
    FirstKeysOf(order, s.hits);
  }

  /** The events that a step other than a new call adds; those that close a stream belong to a batch whose
      stream has just ended. */
  lemma ClosesBatch(w: World, cfg: Config, s: Step, k: nat)
    requires Enabled(w, cfg, s) && !s.Load?
    requires |w.log| <= k < |Next(w, cfg, s).log| && Next(w, cfg, s).log[k].Closed?
    ensures Explained(Next(w, cfg, s), Next(w, cfg, s).log[k].id)
  {
    if IsQuiet(s) {
      QuietStepShape(w, cfg, s);
    } else {
      var w' := Next(w, cfg, s);
      assert s.Pump? || s.EndStream?;
      assert w'.tasks[s.tid].Drained?;
      assert w.tasks[s.tid].batch.pending[k - |w.log|].id == w'.log[k].id;
      assert Among(w'.log[k].id, w'.tasks[s.tid].batch.pending);
    }
  }

  lemma LogGrows(w: World, cfg: Config, s: Step)
    requires Enabled(w, cfg, s)
    ensures w.log <= Next(w, cfg, s).log
  {
    if IsQuiet(s) {
      QuietStepShape(w, cfg, s);
    }
  }

  lemma StepExplained(w: World, cfg: Config, s: Step)
    requires ClosedExplained(w) && Enabled(w, cfg, s)
    ensures ClosedExplained(Next(w, cfg, s))
  {
    if s.Load? {
      LoadStepExplained(w, cfg, s.kind, s.id, s.keys, s.order);
    } else {
      var w' := Next(w, cfg, s);
      LogGrows(w, cfg, s);
      forall k | 0 <= k < |w'.log| && w'.log[k].Closed? ensures Explained(w', w'.log[k].id) {
        if k < |w.log| {
          ExplainedStays(w, cfg, s, w.log[k].id);
        } else {
          ClosesBatch(w, cfg, s, k);
        }
      }
    }
  }

  lemma {:induction false} RunExplained(r: Run, cfg: Config)
    requires IsRun(r, cfg) && r.worlds[0] == START
    ensures ClosedExplained(Last(r))
    decreases |r.steps|
  {
    if r.steps != [] {
      FrontRun(r, cfg);
      RunExplained(Front(r), cfg);
      StepExplained(Last(Front(r)), cfg, r.steps[|r.steps| - 1]);
    }
  }

  /** The caller is in a batch whose stream step `j` asked for, and has been sent exactly its due. */
  ghost predicate GotItsDue(r: Run, id: nat, j: nat, t: nat, batch: Queue, i: nat)
    requires r.worlds != []
  {
    var w := Last(r);
    && Asks(r, j, t, batch) && i < |batch.pending| && batch.pending[i].id == id
    && id in w.calls && id in w.channels && WaitsForRest(w.calls[id], batch.pending[i].keys)
    && w.channels[id] == Due(w.calls[id], batch.pending[i].keys, r.steps[j].items)
  }

  /** Over every run: each stream call that has been closed was sent its cached pairs and nothing else, all
      its keys being cached, or exactly its due of what the loader returned in some step. */
  lemma ClosedGotItsDue(r: Run, cfg: Config, k: nat)
    requires IsRun(r, cfg) && r.worlds[0] == START && k < |Last(r).log| && Last(r).log[k].Closed?
    ensures var w, id := Last(r), Last(r).log[k].id;
            || (id in w.calls && WhollyCached(w.calls[id]) && id in w.channels && w.channels[id] == w.calls[id].first)
            || exists j, t, batch, i :: GotItsDue(r, id, j, t, batch, i)
  {
    var w, id := Last(r), Last(r).log[k].id;
    RunExplained(r, cfg);
    RunCachedServed(r, cfg);
    assert Explained(w, id);
    if t :| 0 <= t < |w.tasks| && w.tasks[t].Drained? && Among(id, w.tasks[t].batch.pending) {
      var i :| 0 <= i < |w.tasks[t].batch.pending| && w.tasks[t].batch.pending[i].id == id;
      var j := StreamOrigin(r, cfg, t);
      RunServed(r, cfg);
      ReachableSound(r, cfg);
      DeliveredByTask(w, t, i);
      assert Answered(w, id);
      assert GotItsDue(r, id, j, t, w.tasks[t].batch, i);
    }
  }

  /** Batching and caching are invisible to stream callers too: if the loader returned a stream without an
      error that left out none of the pairs that a caller waited for, that caller has, once closed, been
      sent exactly the pairs of `f` on the keys it asked for. */
  lemma StreamTransparent(r: Run, cfg: Config, f: Key -> Option<Value>, total: bool, j: nat, t: nat, batch: Queue,
                          i: nat, k: Key, v: Value)
    requires IsRun(r, cfg) && r.worlds[0] == START && CacheTrue(cfg.initial, f)
    requires forall n :: 0 <= n < |r.steps| ==> FaithfulAt(r, n, f, total)
    requires Asks(r, j, t, batch) && i < |batch.pending| && Answered(Last(r), batch.pending[i].id)
    requires NoError(r.steps[j].items)
    requires forall x :: x in batch.pending[i].keys && f(x).Some? ==> Ok((x, f(x).value)) in r.steps[j].items
    ensures var w, id := Last(r), batch.pending[i].id;
            && id in w.calls && id in w.channels
            && (Ok((k, v)) in w.channels[id] <==> k in KeySet(w.calls[id].keys) && f(k) == Some(v))
  {
    var w, wt, items := Last(r), batch.pending[i], r.steps[j].items;
    StreamDelivered(r, cfg, j, t, batch, |r.steps|, i);
    RunTruthful(r, cfg, f, total);
    assert FaithfulAt(r, j, f, total);
    DueIsRestriction(w.calls[wt.id], wt.keys, items, f, k, v);
  }

  /** All that is due of a complete stream is `f` on the requested keys. */
  lemma DueIsRestriction(call: Call, keys: set<Key>, items: seq<Item>, f: Key -> Option<Value>, k: Key, v: Value)
    requires WaitsForRest(call, keys) && ItemsAgree(call.first, f) && ItemsAgree(items, f) && NoError(items)
    requires forall x :: x in keys && f(x).Some? ==> Ok((x, f(x).value)) in items
    ensures Ok((k, v)) in Due(call, keys, items) <==> k in KeySet(call.keys) && f(k) == Some(v)
  {
    EndedIsUpToError(items, |items|);
    assert items[..|items|] == items;
    WantedMembers(items, keys, Ok((k, v)));
    FirstMembers(call, keys, f, k, v);
    if Ok((k, v)) in items {
      AgreeingItem(items, f, k, v);
    }
  }
}
