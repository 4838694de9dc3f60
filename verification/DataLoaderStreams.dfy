/** What the callers of `load_many_stream` are sent. */
module DataLoaderStreams {
  import opened Wrappers
  import opened CacheStorage
  import opened Batching
  import opened DataLoader
  import opened DataLoaderDelivery
  import opened DataLoaderMeaning

  /** The loader's stream up to and including its first error. */
  function UpToError(items: seq<Item>): seq<Item> {
    if items == [] then []
    else if items[0].Err? then [items[0]]
    else [items[0]] + UpToError(items[1..])
  }

  /** The part of a stream that a caller who asked for `keys` is sent, in order. */
  function Wanted(items: seq<Item>, keys: set<Key>): seq<Item> {
    if items == [] then []
    else
      var rest := Wanted(items[..|items| - 1], keys);
      var item := items[|items| - 1];
      if item.Err? || item.value.0 in keys then rest + [item] else rest
  }

  /** Taking what is wanted is taking it piece by piece. */
  lemma {:induction false} WantedConcat(a: seq<Item>, b: seq<Item>, keys: set<Key>)
    ensures Wanted(a + b, keys) == Wanted(a, keys) + Wanted(b, keys)
  {
    if b == [] {
      assert a + b == a;
    } else {
      WantedConcat(a, b[..|b| - 1], keys);
      assert (a + b)[..|a + b| - 1] == a + b[..|b| - 1];
    }
  }

  lemma WantedOne(item: Item, keys: set<Key>)
    ensures Wanted([item], keys) == if item.Err? || item.value.0 in keys then [item] else []
  {
    assert [item][..0] == [];
  }

  ghost predicate NoError(items: seq<Item>) {
    forall i :: 0 <= i < |items| ==> items[i].Ok?
  }

  /** `at` is just behind the first error, or at the end of an error-free stream. */
  ghost predicate Ended(items: seq<Item>, at: nat) {
    && at <= |items|
    && ((at == |items| && NoError(items)) || (0 < at && NoError(items[..at - 1]) && items[at - 1].Err?))
  }

  lemma {:induction false} EndedIsUpToError(items: seq<Item>, at: nat)
    requires Ended(items, at)
    ensures items[..at] == UpToError(items)
  {
    if at > 0 && items[0].Ok? {
      assert items[..at] == [items[0]] + items[1..][..at - 1];
      assert items[1..][..at - 1] == items[1..at];
      if at == |items| && NoError(items) {
        assert NoError(items[1..]);
      } else {
        assert at >= 2;
        assert items[1..][..at - 2] == items[..at - 1][1..];
        assert items[1..][at - 2] == items[at - 1];
      }
      EndedIsUpToError(items[1..], at - 1);
    }
  }

  // ----- delivering one item -----

  lemma {:induction false} DeliverOthers(channels: map<nat, seq<Item>>, ws: seq<Waiter>, item: Item, id: nat)
    requires !Among(id, ws)
    ensures id in Deliver(channels, ws, item) <==> id in channels
    ensures Sent(Deliver(channels, ws, item), id) == Sent(channels, id)
  {
    if ws != [] {
      var ws' := ws[..|ws| - 1];
      assert ws == ws' + [ws[|ws| - 1]];
      AmongSnoc(ws', ws[|ws| - 1], id);
      DeliverOthers(channels, ws', item, id);
    }
  }

  lemma {:induction false} DeliverTo(channels: map<nat, seq<Item>>, ws: seq<Waiter>, item: Item, i: nat)
    requires DistinctIds(ws) && i < |ws| && ws[i].id in channels
    ensures ws[i].id in Deliver(channels, ws, item)
    ensures Sent(Deliver(channels, ws, item), ws[i].id)
         == Sent(channels, ws[i].id) + if Wants(ws[i], item) then [item] else []
  {
    var n := |ws| - 1;
    var ws' := ws[..n];
    if i == n {
      assert !Among(ws[i].id, ws');
      DeliverOthers(channels, ws', item, ws[i].id);
    } else {
      assert ws'[i] == ws[i];
      DeliverTo(channels, ws', item, i);
    }
  }

  // ----- the invariant -----

  function FirstKeys(first: seq<Item>): set<Key> {
    set i | 0 <= i < |first| && first[i].Ok? :: first[i].value.0
  }

  /** A stream caller has its cached pairs, which are for exactly the requested keys it does not wait
      for, and then what it wants of the stream so far. */
  ghost predicate Served(w: World, wt: Waiter, sofar: seq<Item>) {
    && wt.id in w.calls && wt.id in w.channels
    && w.channels[wt.id] == w.calls[wt.id].first + Wanted(sofar, wt.keys)
    && FirstKeys(w.calls[wt.id].first) !! wt.keys
    && FirstKeys(w.calls[wt.id].first) + wt.keys == KeySet(w.calls[wt.id].keys)
  }

  function Audience(t: Task): seq<Waiter> {
    if t.Drained? then t.batch.pending
    else if TaskKind(t).Streaming? then Held(t).pending
    else []
  }

  function SoFar(t: Task): seq<Item> {
    if (t.Pumping? || t.Drained?) && t.at <= |t.items| then t.items[..t.at] else []
  }

  ghost predicate TaskServed(w: World, t: Task) {
    && (t.Pumping? ==> t.at <= |t.items| && NoError(t.items[..t.at]))
    && (t.Drained? ==> Ended(t.items, t.at))
    && forall i :: 0 <= i < |Audience(t)| ==>
         Served(w, Audience(t)[i], SoFar(t)) && (t.Drained? ==> Answered(w, Audience(t)[i].id))
  }

  ghost predicate StreamsServed(w: World) {
    && AllServed(w, Waiting(w, Streaming).pending, [])
    && (forall t :: 0 <= t < |w.tasks| ==> TaskServed(w, w.tasks[t]))
  }

  ghost predicate AllServed(w: World, ws: seq<Waiter>, sofar: seq<Item>) {
    forall i :: 0 <= i < |ws| ==> Served(w, ws[i], sofar)
  }

  lemma AnsweredKept(w: World, w': World, id: nat)
    requires Answered(w, id) && w.log <= w'.log
    ensures Answered(w', id)
  {
    var i :| 0 <= i < |w.log| && w.log[i].id == id;
    assert w'.log[i].id == id;
  }

  /** A task whose callers' calls and channels are untouched is served as before. */
  lemma TaskServedKept(w: World, w': World, t: Task)
    requires TaskServed(w, t) && w.log <= w'.log
    requires forall i :: 0 <= i < |Audience(t)| ==>
               var id := Audience(t)[i].id;
               id in w'.calls && id in w'.channels && (id in w.calls ==> w'.calls[id] == w.calls[id])
               && (id in w.channels ==> w'.channels[id] == w.channels[id])
    ensures TaskServed(w', t)
  {
    forall i | 0 <= i < |Audience(t)| && t.Drained? ensures Answered(w', Audience(t)[i].id) {
      assert Served(w, Audience(t)[i], SoFar(t));
      AnsweredKept(w, w', Audience(t)[i].id);
    }
  }

  /** Steps that send nothing and start or end no stream. */
  lemma QuietServed(w: World, w': World)
    requires StreamsServed(w) && w'.calls == w.calls && w'.channels == w.channels && w.log <= w'.log
    requires Waiting(w', Streaming).pending == Waiting(w, Streaming).pending || Waiting(w', Streaming).pending == []
    requires |w'.tasks| == |w.tasks|
    requires forall t :: 0 <= t < |w.tasks| ==> w'.tasks[t] == w.tasks[t] || TaskServed(w', w'.tasks[t])
    ensures StreamsServed(w')
  {
    forall t | 0 <= t < |w'.tasks| ensures TaskServed(w', w'.tasks[t]) {
      if w'.tasks[t] == w.tasks[t] {
        assert TaskServed(w, w.tasks[t]);
        forall i | 0 <= i < |Audience(w.tasks[t])|
          ensures Audience(w.tasks[t])[i].id in w.calls && Audience(w.tasks[t])[i].id in w.channels
        {
          assert Served(w, Audience(w.tasks[t])[i], SoFar(w.tasks[t]));
        }
        TaskServedKept(w, w', w.tasks[t]);
      }
    }
    forall i | 0 <= i < |Waiting(w', Streaming).pending|
      ensures Served(w', Waiting(w', Streaming).pending[i], [])
    {
      assert Served(w, Waiting(w, Streaming).pending[i], []);
    }
  }

  lemma SpawnServed(w: World, t: nat, items: seq<Item>)
    requires StreamsServed(w) && t < |w.tasks| && (w.tasks[t].OwedLoad? || w.tasks[t].OwedFetch?)
    ensures StreamsServed(SpawnNext(w, t, items))
  {
    var w' := SpawnNext(w, t, items);
    assert TaskServed(w, w.tasks[t]);
    assert items[..0] == [];
    forall i | 0 <= i < |Audience(w'.tasks[t])| ensures Served(w', Audience(w'.tasks[t])[i], []) {
      assert Served(w, Audience(w.tasks[t])[i], []);
    }
    QuietServed(w, w');
  }

  lemma FireServed(w: World, t: nat, items: seq<Item>)
    requires StreamsServed(w) && t < |w.tasks| && w.tasks[t].Sleeping? && w.entry.Some?
    ensures StreamsServed(FireNext(w, t, items))
  {
    var w' := FireNext(w, t, items);
    assert items[..0] == [];
    forall i | 0 <= i < |Audience(w'.tasks[t])| ensures Served(w', Audience(w'.tasks[t])[i], []) {
      assert Served(w, Waiting(w, Streaming).pending[i], []);
    }
    QuietServed(w, w');
  }

  lemma ClosedByClosings(w: World, w': World, ws: seq<Waiter>)
    requires w'.log == w.log + Closings(ws)
    ensures forall i :: 0 <= i < |ws| ==> Answered(w', ws[i].id)
  {
    forall i | 0 <= i < |ws| ensures Answered(w', ws[i].id) {
      assert w'.log[|w.log| + i] == Closed(ws[i].id);
    }
  }

  lemma EndServed(w: World, t: nat)
    requires StreamsServed(w) && t < |w.tasks| && w.tasks[t].Pumping? && |w.tasks[t].items| <= w.tasks[t].at
    ensures StreamsServed(EndNext(w, t))
  {
    var w' := EndNext(w, t);
    var task := w.tasks[t];
    assert TaskServed(w, task);
    assert task.items[..task.at] == task.items;
    ClosedByClosings(w, w', task.batch.pending);
    forall i | 0 <= i < |task.batch.pending| ensures Served(w', task.batch.pending[i], SoFar(w'.tasks[t])) {
      assert Served(w, Audience(task)[i], SoFar(task));
    }
    QuietServed(w, w');
  }

  /** A stream caller of a task is in its batch, or has been answered. */
  lemma AudiencePlace(w: World, u: nat, i: nat)
    requires StreamsServed(w) && u < |w.tasks| && i < |Audience(w.tasks[u])|
    ensures exists p: Place :: At(w, p, Audience(w.tasks[u])[i].id) && (p == InTask(u) || p.InLog?)
  {
    var id := Audience(w.tasks[u])[i].id;
    assert TaskServed(w, w.tasks[u]);
    if w.tasks[u].Drained? {
      var j :| 0 <= j < |w.log| && w.log[j].id == id;
      assert At(w, InLog(j), id);
    } else {
      assert At(w, InTask(u), id);
    }
  }

  /** The callers of different batches, of the queue, and of closed streams are different callers. */
  lemma OthersNotInBatch(w: World, t: nat, u: nat, i: nat)
    requires Sound(w) && StreamsServed(w) && t < |w.tasks| && u < |w.tasks| && t != u && HasBatch(w.tasks[t])
    requires i < |Audience(w.tasks[u])|
    ensures !Among(Audience(w.tasks[u])[i].id, Held(w.tasks[t]).pending)
  {
    var id := Audience(w.tasks[u])[i].id;
    AudiencePlace(w, u, i);
    assert Among(id, Held(w.tasks[t]).pending) ==> At(w, InTask(t), id);
  }

  lemma QueueNotInBatch(w: World, t: nat, i: nat)
    requires Sound(w) && t < |w.tasks| && HasBatch(w.tasks[t]) && i < |Waiting(w, Streaming).pending|
    ensures !Among(Waiting(w, Streaming).pending[i].id, Held(w.tasks[t]).pending)
  {
    var id := Waiting(w, Streaming).pending[i].id;
    assert At(w, InQueue(Streaming), id);
    assert Among(id, Held(w.tasks[t]).pending) ==> At(w, InTask(t), id);
  }

  /** One item: every caller of the batch that wants it gets it, everyone else is left alone. */
  lemma DeliveredServed(w: World, w': World, ws: seq<Waiter>, items: seq<Item>, at: nat)
    requires DistinctIds(ws) && at < |items| && AllServed(w, ws, items[..at])
    requires w'.calls == w.calls && w'.channels == Deliver(w.channels, ws, items[at])
    ensures AllServed(w', ws, items[..at + 1])
  {
    assert items[..at + 1][..at] == items[..at];
    forall i | 0 <= i < |ws| ensures Served(w', ws[i], items[..at + 1]) {
      assert Served(w, ws[i], items[..at]);
      DeliverTo(w.channels, ws, items[at], i);
    }
  }

  lemma PumpShape(w: World, t: nat)
    requires t < |w.tasks| && w.tasks[t].Pumping? && w.entry.Some? && w.tasks[t].at < |w.tasks[t].items|
    ensures var w' := PumpNext(w, t);
            var Pumping(batch, _, items, at) := w.tasks[t];
            && w'.calls == w.calls && w'.channels == Deliver(w.channels, batch.pending, items[at])
            && w'.tasks == w.tasks[t := AfterItem(w.tasks[t])]
            && w'.log == w.log + if items[at].Err? then Closings(batch.pending) else []
  {}

  function AfterItem(t: Task): Task
    requires t.Pumping? && t.at < |t.items|
  {
    if t.items[t.at].Ok? then Pumping(t.batch, t.disabled, t.items, t.at + 1) else Drained(t.batch, t.items, t.at + 1)
  }

  lemma AfterItemServed(w: World, w': World, task: Task)
    requires task.Pumping? && task.at < |task.items|
    requires TaskServed(w, task) && DistinctIds(task.batch.pending)
    requires w'.calls == w.calls && w'.channels == Deliver(w.channels, task.batch.pending, task.items[task.at])
    requires task.items[task.at].Err? ==> w'.log == w.log + Closings(task.batch.pending)
    ensures TaskServed(w', AfterItem(task))
  {
    var Pumping(batch, _, items, at) := task;
    assert items[..at + 1][..at] == items[..at];
    assert AllServed(w, Audience(task), SoFar(task));
    DeliveredServed(w, w', batch.pending, items, at);
    if items[at].Err? {
      ClosedByClosings(w, w', batch.pending);
    }
  }

  lemma PumpedTaskServed(w: World, t: nat)
    requires Sound(w) && StreamsServed(w)
    requires t < |w.tasks| && w.tasks[t].Pumping? && w.entry.Some? && w.tasks[t].at < |w.tasks[t].items|
    ensures TaskServed(PumpNext(w, t), PumpNext(w, t).tasks[t])
  {
    var w' := PumpNext(w, t);
    PumpShape(w, t);
    assert TaskServed(w, w.tasks[t]);
    assert DistinctIds(Held(w.tasks[t]).pending);
    AfterItemServed(w, w', w.tasks[t]);
  }

  lemma PumpServed(w: World, t: nat)
    requires Sound(w) && StreamsServed(w)
    requires t < |w.tasks| && w.tasks[t].Pumping? && w.entry.Some? && w.tasks[t].at < |w.tasks[t].items|
    ensures StreamsServed(PumpNext(w, t))
  {
    var w' := PumpNext(w, t);
    var ws, item := w.tasks[t].batch.pending, w.tasks[t].items[w.tasks[t].at];
    PumpedTaskServed(w, t);
    forall u | 0 <= u < |w'.tasks| ensures TaskServed(w', w'.tasks[u]) {
      if u != t {
        assert TaskServed(w, w.tasks[u]);
        forall i | 0 <= i < |Audience(w.tasks[u])|
          ensures var id := Audience(w.tasks[u])[i].id;
                  id in w'.calls && id in w'.channels && id in w.channels && w'.channels[id] == w.channels[id]
        {
          assert Served(w, Audience(w.tasks[u])[i], SoFar(w.tasks[u]));
          OthersNotInBatch(w, t, u, i);
          DeliverOthers(w.channels, ws, item, Audience(w.tasks[u])[i].id);
        }
        TaskServedKept(w, w', w.tasks[u]);
      }
    }
    forall i | 0 <= i < |Waiting(w', Streaming).pending|
      ensures Served(w', Waiting(w', Streaming).pending[i], [])
    {
      assert Served(w, Waiting(w, Streaming).pending[i], []);
      QueueNotInBatch(w, t, i);
      DeliverOthers(w.channels, ws, item, Waiting(w, Streaming).pending[i].id);
    }
  }

  // ----- new calls -----

  lemma FirstKeysOf(order: seq<(Key, Value)>, hits: map<Key, Value>)
    requires Enumerates(order, hits)
    ensures FirstKeys(AsItems(order)) == hits.Keys
  {
    EnumeratesMembers(order, hits);
    forall k | k in hits ensures k in FirstKeys(AsItems(order)) {
      var i :| 0 <= i < |order| && order[i] == (k, hits[k]);
      assert AsItems(order)[i].value.0 == k;
    }
  }

  /** A new call changes nothing for the callers of existing tasks. */
  lemma OldTaskServed(w: World, w': World, id: nat, call: Call, u: nat)
    requires StreamsServed(w) && id !in w.calls && u < |w.tasks|
    requires w'.calls == w.calls[id := call] && w'.channels == w.channels[id := call.first] && w.log <= w'.log
    ensures TaskServed(w', w.tasks[u])
  {
    assert TaskServed(w, w.tasks[u]);
    forall i | 0 <= i < |Audience(w.tasks[u])|
      ensures Audience(w.tasks[u])[i].id in w.calls && Audience(w.tasks[u])[i].id in w.channels
    {
      assert Served(w, Audience(w.tasks[u])[i], SoFar(w.tasks[u]));
    }
    TaskServedKept(w, w', w.tasks[u]);
  }

  lemma JoinedServed(w: World, w': World, id: nat, call: Call, misses: set<Key>)
    requires StreamsServed(w) && id !in w.calls
    requires w'.calls == w.calls[id := call] && w'.channels == w.channels[id := call.first]
    requires FirstKeys(call.first) !! misses && FirstKeys(call.first) + misses == KeySet(call.keys)
    ensures AllServed(w', Waiting(w, Streaming).pending + [Waiter(id, misses, map[])], [])
  {
    forall i | 0 <= i < |Waiting(w, Streaming).pending|
      ensures Served(w', Waiting(w, Streaming).pending[i], [])
    {
      assert Served(w, Waiting(w, Streaming).pending[i], []);
    }
  }

  lemma StreamAdmission(w: World, cfg: Config, id: nat, ks: seq<Key>, order: seq<(Key, Value)>, s: SplitResult)
    ensures var w' := LoadSorted(w, cfg, Streaming, id, ks, order, s);
            var queue := Waiting(w, Streaming).pending;
            var joined := queue + [Waiter(id, s.misses, map[])];
            && w'.calls == w.calls[id := Call(Streaming, ks, AsItems(order))]
            && w'.channels == w.channels[id := AsItems(order)] && w.log <= w'.log
            && w.tasks <= w'.tasks
            && (forall u :: |w.tasks| <= u < |w'.tasks| ==>
                  w'.tasks[u] == OwedFetch(Streaming) || (w'.tasks[u].OwedLoad? && Audience(w'.tasks[u]) == joined))
            && (var q := Waiting(w', Streaming).pending; q == queue || q == joined || q == [])
  {
    var w' := LoadSorted(w, cfg, Streaming, id, ks, order, s);
    var a := AdmitSorted(CoreOf(w, cfg), Streaming, id, s, cfg.maxBatch).1;
    assert w'.tasks == w.tasks + NewTasks(Streaming, a);
  }

  lemma LoadOnceServed(w: World, cfg: Config, id: nat, ks: seq<Key>, order: seq<(Key, Value)>, s: SplitResult)
    requires StreamsServed(w) && id !in w.calls
    ensures StreamsServed(LoadSorted(w, cfg, Once, id, ks, order, s))
  {
    var w' := LoadSorted(w, cfg, Once, id, ks, order, s);
    var a := AdmitSorted(CoreOf(w, cfg), Once, id, s, cfg.maxBatch).1;
    assert w'.tasks == w.tasks + NewTasks(Once, a);
    forall u | 0 <= u < |w'.tasks| ensures TaskServed(w', w'.tasks[u]) {
      if u < |w.tasks| {
        OldTaskServed(w, w', id, w'.calls[id], u);
      }
    }
    forall i | 0 <= i < |Waiting(w', Streaming).pending|
      ensures Served(w', Waiting(w', Streaming).pending[i], [])
    {
      assert Served(w, Waiting(w, Streaming).pending[i], []);
    }
  }

  lemma LoadStreamServed(w: World, cfg: Config, id: nat, ks: seq<Key>, order: seq<(Key, Value)>, s: SplitResult)
    requires StreamsServed(w) && id !in w.calls
    requires Enumerates(order, s.hits) && s.hits.Keys !! s.misses && s.hits.Keys + s.misses == KeySet(ks)
    ensures StreamsServed(LoadSorted(w, cfg, Streaming, id, ks, order, s))
  {
    var w' := LoadSorted(w, cfg, Streaming, id, ks, order, s);
    var joined := Waiting(w, Streaming).pending + [Waiter(id, s.misses, map[])];
    StreamAdmission(w, cfg, id, ks, order, s);
    FirstKeysOf(order, s.hits);
    JoinedServed(w, w', id, w'.calls[id], s.misses);
    forall u | 0 <= u < |w'.tasks| ensures TaskServed(w', w'.tasks[u]) {
      if u < |w.tasks| {
        OldTaskServed(w, w', id, w'.calls[id], u);
      } else if w'.tasks[u].OwedLoad? {
        assert AllServed(w', Audience(w'.tasks[u]), []);
      }
    }
    assert joined[..|Waiting(w, Streaming).pending|] == Waiting(w, Streaming).pending;
    assert AllServed(w', joined[..|Waiting(w, Streaming).pending|], []);
    assert AllServed(w', Waiting(w', Streaming).pending, []);
  }

  lemma LoadServed(w: World, cfg: Config, kind: Kind, id: nat, ks: seq<Key>, order: seq<(Key, Value)>)
    requires StreamsServed(w) && Enabled(w, cfg, Load(kind, id, ks, order))
    ensures StreamsServed(LoadNext(w, cfg, kind, id, ks, order))
  {
    var core := CoreOf(w, cfg);
    var sorted := Sort(core.cache, ks, core.disabled || w.allDisabled);
    SplitMeaning(core.cache, ks);
    if kind.Once? {
      LoadOnceServed(w, cfg, id, ks, order, sorted);
    } else {
      assert Cached(Admitted(w, cfg, kind, id, ks).1) == sorted.hits;
      LoadStreamServed(w, cfg, id, ks, order, sorted);
    }
  }

  lemma QuietStepServed(w: World, cfg: Config, s: Step)
    requires StreamsServed(w) && Enabled(w, cfg, s) && IsQuiet(s)
    ensures StreamsServed(Next(w, cfg, s))
  {
    QuietStepShape(w, cfg, s);
    QuietServed(w, Next(w, cfg, s));
  }

  lemma CompleteServed(w: World, t: nat, outcome: Result<map<Key, Value>, Error>, pairs: seq<(Key, Value)>)
    requires StreamsServed(w) && t < |w.tasks| && w.tasks[t].Loading? && w.entry.Some?
    ensures StreamsServed(CompleteNext(w, t, outcome, pairs))
  {
    QuietServed(w, CompleteNext(w, t, outcome, pairs));
  }

  lemma StepServed(w: World, cfg: Config, s: Step)
    requires Sound(w) && StreamsServed(w) && Enabled(w, cfg, s)
    ensures StreamsServed(Next(w, cfg, s))
  {
    match s
    case Load(kind, id, ks, order) => LoadServed(w, cfg, kind, id, ks, order);
    case Spawn(t, items) => SpawnServed(w, t, items);
    case Fire(t, items) => FireServed(w, t, items);
    case Pump(t) => PumpServed(w, t);
    case EndStream(t) => EndServed(w, t);
    case Complete(t, outcome, pairs) => CompleteServed(w, t, outcome, pairs);
    case _ => QuietStepServed(w, cfg, s);
  }

  lemma {:induction false} RunServed(r: Run, cfg: Config)
    requires IsRun(r, cfg) && r.worlds[0] == START
    ensures StreamsServed(Last(r))
    decreases |r.steps|
  {
    if r.steps != [] {
      FrontRun(r, cfg);
      RunServed(Front(r), cfg);
      ReachableSound(Front(r), cfg);
      StepServed(Last(Front(r)), cfg, r.steps[|r.steps| - 1]);
    }
  }

  /** Under every interleaving: once a stream batch is done, each of its callers has been sent its
      cached pairs first, then exactly the part of the loader's stream it asked for, up to and
      including the first error; and its stream has been closed. */
  lemma StreamFanOut(r: Run, cfg: Config, t: nat, i: nat)
    requires IsRun(r, cfg) && r.worlds[0] == START
    requires t < |Last(r).tasks| && Last(r).tasks[t].Drained? && i < |Last(r).tasks[t].batch.pending|
    ensures var w := Last(r);
            var wt := w.tasks[t].batch.pending[i];
            && wt.id in w.calls && wt.id in w.channels && Answered(w, wt.id)
            && w.channels[wt.id] == w.calls[wt.id].first + Wanted(UpToError(w.tasks[t].items), wt.keys)
            && FirstKeys(w.calls[wt.id].first) !! wt.keys
            && FirstKeys(w.calls[wt.id].first) + wt.keys == KeySet(w.calls[wt.id].keys)
  {
    RunServed(r, cfg);
    var task := Last(r).tasks[t];
    assert TaskServed(Last(r), task);
    assert Served(Last(r), Audience(task)[i], SoFar(task));
    EndedIsUpToError(task.items, task.at);
  }

  lemma {:induction false} WantedMembers(items: seq<Item>, keys: set<Key>, item: Item)
    requires item.Ok?
    ensures item in Wanted(items, keys) <==> item in items && item.value.0 in keys
  {
    if items != [] {
      var n := |items| - 1;
      WantedMembers(items[..n], keys, item);
      assert items == items[..n] + [items[n]];
    }
  }

  lemma AgreeingItem(items: seq<Item>, f: Key -> Option<Value>, k: Key, v: Value)
    requires ItemsAgree(items, f) && Ok((k, v)) in items
    ensures f(k) == Some(v)
  {
    var i :| 0 <= i < |items| && items[i] == Ok((k, v));
  }

  /** The pairs sent from the cache: the requested keys that are not waited for, with their values. */
  lemma FirstMembers(call: Call, misses: set<Key>, f: Key -> Option<Value>, k: Key, v: Value)
    requires ItemsAgree(call.first, f)
    requires FirstKeys(call.first) !! misses && FirstKeys(call.first) + misses == KeySet(call.keys)
    ensures Ok((k, v)) in call.first <==> k in KeySet(call.keys) && k !in misses && f(k) == Some(v)
  {
    if Ok((k, v)) in call.first {
      AgreeingItem(call.first, f, k, v);
      var i :| 0 <= i < |call.first| && call.first[i] == Ok((k, v));
      assert call.first[i].value.0 in FirstKeys(call.first);
    }
    if k in FirstKeys(call.first) {
      var i :| 0 <= i < |call.first| && call.first[i].Ok? && call.first[i].value.0 == k;
      assert f(k) == Some(call.first[i].value.1);
    }
  }

  // ----- callers who wait for nothing -----

  /** A stream call all of whose keys were cached. */
  ghost predicate WhollyCached(call: Call) {
    call.kind.Streaming? && FirstKeys(call.first) == KeySet(call.keys)
  }

  /** It has been sent its cached pairs and nothing else, and its stream is closed. */
  ghost predicate CachedServed(w: World) {
    forall id: nat :: id in w.calls && WhollyCached(w.calls[id]) ==>
      id in w.channels && w.channels[id] == w.calls[id].first && Answered(w, id)
  }

  lemma CachedServedKept(w: World, w': World)
    requires CachedServed(w) && w'.calls == w.calls && w.log <= w'.log
    requires forall id: nat :: id in w.calls && WhollyCached(w.calls[id]) && id in w.channels ==>
               id in w'.channels && w'.channels[id] == w.channels[id]
    ensures CachedServed(w')
  {
    forall id: nat | id in w'.calls && WhollyCached(w'.calls[id]) ensures Answered(w', id) {
      AnsweredKept(w, w', id);
    }
  }

  lemma LoadedCall(w: World, cfg: Config, kind: Kind, id: nat, ks: seq<Key>, order: seq<(Key, Value)>, s: SplitResult)
    ensures var w' := LoadSorted(w, cfg, kind, id, ks, order, s);
            var first := if kind.Streaming? then AsItems(order) else [];
            && w'.calls == w.calls[id := Call(kind, ks, first)] && w'.channels == w.channels[id := first]
  {}

  lemma NewCallServed(w: World, w': World, id: nat, call: Call)
    requires CachedServed(w) && id !in w.calls && w.log <= w'.log
    requires w'.calls == w.calls[id := call] && w'.channels == w.channels[id := call.first]
    requires WhollyCached(call) ==> Answered(w', id)
    ensures CachedServed(w')
  {
    forall x: nat | x in w.calls && WhollyCached(w.calls[x]) ensures Answered(w', x) {
      AnsweredKept(w, w', x);
    }
  }

  /** A call that was sent all its keys from the cache is answered at once. */
  lemma CachedAnswered(w: World, cfg: Config, id: nat, ks: seq<Key>, order: seq<(Key, Value)>, s: SplitResult)
    requires Enumerates(order, s.hits) && s.hits.Keys !! s.misses && s.hits.Keys + s.misses == KeySet(ks)
    requires FirstKeys(AsItems(order)) == KeySet(ks)
    ensures Answered(LoadSorted(w, cfg, Streaming, id, ks, order, s), id)
  {
    var w' := LoadSorted(w, cfg, Streaming, id, ks, order, s);
    FirstKeysOf(order, s.hits);
    assert s.misses == {};
    LoadedLog(w, cfg, Streaming, id, ks, order, s);
    assert w'.log[|w.log|] == Closed(id);
  }

  lemma LoadCachedServed(w: World, cfg: Config, kind: Kind, id: nat, ks: seq<Key>, order: seq<(Key, Value)>,
                         s: SplitResult)
    requires CachedServed(w) && id !in w.calls
    requires Enumerates(order, s.hits) && s.hits.Keys !! s.misses && s.hits.Keys + s.misses == KeySet(ks)
    ensures CachedServed(LoadSorted(w, cfg, kind, id, ks, order, s))
  {
    var w' := LoadSorted(w, cfg, kind, id, ks, order, s);
    LoadedCall(w, cfg, kind, id, ks, order, s);
    LoadedLog(w, cfg, kind, id, ks, order, s);
    if WhollyCached(w'.calls[id]) {
      CachedAnswered(w, cfg, id, ks, order, s);
    }
    NewCallServed(w, w', id, w'.calls[id]);
  }

  lemma LoadStepCachedServed(w: World, cfg: Config, kind: Kind, id: nat, ks: seq<Key>, order: seq<(Key, Value)>)
    requires CachedServed(w) && Enabled(w, cfg, Load(kind, id, ks, order))
    ensures CachedServed(LoadNext(w, cfg, kind, id, ks, order))
  {
    var core := CoreOf(w, cfg);
    var sorted := Sort(core.cache, ks, core.disabled || w.allDisabled);
    SplitMeaning(core.cache, ks);
    assert Cached(Admitted(w, cfg, kind, id, ks).1) == sorted.hits;
    LoadCachedServed(w, cfg, kind, id, ks, order, sorted);
  }

  /** Nobody in a batch was served wholly from the cache, so pumping sends nothing to such callers. */
  lemma PumpCachedServed(w: World, t: nat)
    requires Sound(w) && StreamsServed(w) && CachedServed(w)
    requires t < |w.tasks| && w.tasks[t].Pumping? && w.entry.Some? && w.tasks[t].at < |w.tasks[t].items|
    ensures CachedServed(PumpNext(w, t))
  {
    var ws := w.tasks[t].batch.pending;
    PumpShape(w, t);
    assert TaskServed(w, w.tasks[t]) && TaskOk(w.tasks[t]);
    forall id: nat | id in w.calls && WhollyCached(w.calls[id]) ensures !Among(id, ws) {
      forall i | 0 <= i < |ws| ensures ws[i].id != id {
        assert Served(w, Audience(w.tasks[t])[i], SoFar(w.tasks[t]));
      }
    }
    forall id: nat | id in w.calls && WhollyCached(w.calls[id]) {
      DeliverOthers(w.channels, ws, w.tasks[t].items[w.tasks[t].at], id);
    }
    CachedServedKept(w, PumpNext(w, t));
  }

  /** All other steps send nothing. */
  lemma SendsNothing(w: World, cfg: Config, s: Step)
    requires Enabled(w, cfg, s) && !s.Load? && !s.Pump?
    ensures var w' := Next(w, cfg, s); w'.calls == w.calls && w'.channels == w.channels && w.log <= w'.log
  {}

  lemma StepCachedServed(w: World, cfg: Config, s: Step)
    requires Sound(w) && StreamsServed(w) && CachedServed(w) && Enabled(w, cfg, s)
    ensures CachedServed(Next(w, cfg, s))
  {
    match s
    case Load(kind, id, ks, order) => LoadStepCachedServed(w, cfg, kind, id, ks, order);
    case Pump(t) => PumpCachedServed(w, t);
    case _ =>
      SendsNothing(w, cfg, s);
      CachedServedKept(w, Next(w, cfg, s));
  }

  lemma {:induction false} RunCachedServed(r: Run, cfg: Config)
    requires IsRun(r, cfg) && r.worlds[0] == START
    ensures CachedServed(Last(r))
    decreases |r.steps|
  {
    if r.steps != [] {
      FrontRun(r, cfg);
      RunCachedServed(Front(r), cfg);
      RunServed(Front(r), cfg);
      ReachableSound(Front(r), cfg);
      StepCachedServed(Last(Front(r)), cfg, r.steps[|r.steps| - 1]);
    }
  }

  /** Under every interleaving: a stream caller all of whose keys were cached has been sent exactly the
      pairs of `f` on the keys it asked for, never anything else, and its stream is closed. */
  lemma CachedStreamTransparent(r: Run, cfg: Config, f: Key -> Option<Value>, total: bool, id: nat, k: Key, v: Value)
    requires IsRun(r, cfg) && r.worlds[0] == START && CacheTrue(cfg.initial, f)
    requires forall j :: 0 <= j < |r.steps| ==> FaithfulAt(r, j, f, total)
    requires id in Last(r).calls && WhollyCached(Last(r).calls[id])
    ensures var w := Last(r);
            && id in w.channels && w.channels[id] == w.calls[id].first && Answered(w, id)
            && (Ok((k, v)) in w.channels[id] <==> k in KeySet(w.calls[id].keys) && f(k) == Some(v))
  {
    RunCachedServed(r, cfg);
    RunTruthful(r, cfg, f, total);
    FirstMembers(Last(r).calls[id], {}, f, k, v);
  }

  // ----- the cache after a stream -----

  function Pairs(items: seq<Item>): seq<(Key, Value)> {
    if items == [] then []
    else
      var rest := Pairs(items[..|items| - 1]);
      if items[|items| - 1].Ok? then rest + [items[|items| - 1].value] else rest
  }

  function DeliverAll(channels: map<nat, seq<Item>>, ws: seq<Waiter>, items: seq<Item>): map<nat, seq<Item>> {
    if items == [] then channels
    else Deliver(DeliverAll(channels, ws, items[..|items| - 1]), ws, items[|items| - 1])
  }

  /** Sending one item through the list of senders. */
  method SendItem(channels: map<nat, seq<Item>>, ws: seq<Waiter>, item: Item)
    returns (channels': map<nat, seq<Item>>)
    ensures channels' == Deliver(channels, ws, item)
    ensures forall id :: id in channels && !Among(id, ws) ==> id in channels' && channels'[id] == channels[id]
  {
    channels' := channels;
    for i := 0 to |ws|
      invariant channels' == Deliver(channels, ws[..i], item)
    {
      assert ws[..i + 1][..i] == ws[..i];
      if item.Err? || item.value.0 in ws[i].keys {
        channels' := channels'[ws[i].id := Sent(channels', ws[i].id) + [item]];
      }
    }
    assert ws[..|ws|] == ws;
    forall id | id in channels && !Among(id, ws) ensures id in channels' && channels'[id] == channels[id] {
      DeliverOthers(channels, ws, item, id);
    }
  }

  /** The cache after a stretch of stream items. */
  function CacheAfter(cache: Store, items: seq<Item>, enabled: bool): Store {
    if enabled then PutAll(cache, Pairs(items)) else cache
  }

  function StoreOne(cache: Store, item: Item, enabled: bool): Store {
    if enabled && item.Ok? then Put(cache, item.value.0, item.value.1) else cache
  }

  lemma OneMoreItem(cache: Store, channels: map<nat, seq<Item>>, ws: seq<Waiter>, items: seq<Item>, at: nat,
                    enabled: bool)
    requires at < |items|
    ensures CacheAfter(cache, items[..at + 1], enabled)
         == StoreOne(CacheAfter(cache, items[..at], enabled), items[at], enabled)
    ensures DeliverAll(channels, ws, items[..at + 1]) == Deliver(DeliverAll(channels, ws, items[..at]), ws, items[at])
    ensures NoError(items[..at]) && items[at].Ok? ==> NoError(items[..at + 1])
  {
    assert items[..at + 1][..at] == items[..at];
    var pairs := Pairs(items[..at]);
    if items[at].Ok? {
      assert (pairs + [items[at].value])[..|pairs|] == pairs;
    }
  }

  /** One turn of the loop of `do_load_stream`. */
  method PumpItem(requests: Requests, channels: map<nat, seq<Item>>, ws: seq<Waiter>, disabled: bool, item: Item)
    returns (channels': map<nat, seq<Item>>)
    modifies requests.cacheStorage
    ensures channels' == Deliver(channels, ws, item)
    ensures requests.cacheStorage.store
         == StoreOne(old(requests.cacheStorage.store), item, !(disabled || requests.disableCache))
  {
    if item.Ok? {
      var (k, v) := item.value;
      requests.StoreItem(k, v, disabled);
      assert requests.Abs().cache == requests.cacheStorage.store;
    }
    channels' := SendItem(channels, ws, item);
  }

  /** The loop of `do_load_stream` when nothing else runs in between: it stops after the first error,
      the channels have been sent the stream up to that point, and with caching enabled the cache has
      been updated by the delivered pairs in order. */
  method DoLoadStream(requests: Requests, channels: map<nat, seq<Item>>, batch: Queue, disabled: bool, items: seq<Item>)
    returns (channels': map<nat, seq<Item>>)
    modifies requests.cacheStorage
    ensures channels' == DeliverAll(channels, batch.pending, UpToError(items))
    ensures requests.cacheStorage.store
         == CacheAfter(old(requests.cacheStorage.store), UpToError(items), !(disabled || requests.disableCache))
  {
    channels' := channels;
    ghost var enabled, before := !(disabled || requests.disableCache), requests.cacheStorage.store;
    for at := 0 to |items|
      invariant NoError(items[..at])
      invariant channels' == DeliverAll(channels, batch.pending, items[..at])
      invariant requests.cacheStorage.store == CacheAfter(before, items[..at], enabled)
    {
      OneMoreItem(before, channels, batch.pending, items, at, enabled);
      channels' := PumpItem(requests, channels', batch.pending, disabled, items[at]);
      if items[at].Err? {
        EndedIsUpToError(items, at + 1);
        return;
      }
    }
    assert items[..|items|] == items;
    EndedIsUpToError(items, |items|);
  }
}
