/** Exactly-once delivery: every request is in exactly one place, in every reachable state. */
module DataLoaderDelivery {
  import opened Wrappers
  import opened CacheStorage
  import opened Batching
  import opened DataLoader

  datatype Place = InQueue(kind: Kind) | InTask(tid: nat) | InLog(index: nat)

  ghost predicate Among(id: nat, ws: seq<Waiter>) {
    exists i :: 0 <= i < |ws| && ws[i].id == id
  }

  ghost predicate DistinctIds(ws: seq<Waiter>) {
    forall i, j :: 0 <= i < j < |ws| ==> ws[i].id != ws[j].id
  }

  ghost predicate At(w: World, p: Place, id: nat) {
    match p
    case InQueue(kind) => Among(id, Waiting(w, kind).pending)
    case InTask(t) => t < |w.tasks| && Among(id, Held(w.tasks[t]).pending)
    case InLog(i) => i < |w.log| && w.log[i].id == id
  }

  /** The kind of request that may be at a place. */
  function PlaceKind(w: World, p: Place): Kind
    requires p.InTask? ==> p.tid < |w.tasks|
    requires p.InLog? ==> p.index < |w.log|
  {
    match p
    case InQueue(kind) => kind
    case InTask(t) => TaskKind(w.tasks[t])
    case InLog(i) => if w.log[i].Reply? then Once else Streaming
  }

  ghost predicate Distinct(w: World) {
    && DistinctIds(Waiting(w, Once).pending) && DistinctIds(Waiting(w, Streaming).pending)
    && (forall t :: 0 <= t < |w.tasks| ==> DistinctIds(Held(w.tasks[t]).pending))
  }

  ghost predicate Known(w: World) {
    forall p: Place, id: nat :: At(w, p, id) ==> id in w.calls && w.calls[id].kind == PlaceKind(w, p)
  }

  ghost predicate OnePlace(w: World) {
    forall p: Place, q: Place, id: nat :: At(w, p, id) && At(w, q, id) ==> p == q
  }

  ghost predicate SomePlace(w: World) {
    forall id: nat :: id in w.calls ==> exists p: Place :: At(w, p, id)
  }

  /** Every request ever made, and nothing else, is in exactly one place and only once there. */
  ghost predicate Placed(w: World) {
    Distinct(w) && Known(w) && OnePlace(w) && SomePlace(w)
  }

  lemma AmongSnoc(ws: seq<Waiter>, wt: Waiter, id: nat)
    ensures Among(id, ws + [wt]) <==> Among(id, ws) || id == wt.id
  {
    if Among(id, ws) {
      var i :| 0 <= i < |ws| && ws[i].id == id;
      assert (ws + [wt])[i].id == id;
    }
    if id == wt.id {
      assert (ws + [wt])[|ws|].id == id;
    }
  }

  /** A step that only moves nothing keeps the placement. */
  lemma SamePlaces(w: World, w': World)
    requires Placed(w) && w'.calls == w.calls && w'.log == w.log
    requires Waiting(w', Once).pending == Waiting(w, Once).pending
    requires Waiting(w', Streaming).pending == Waiting(w, Streaming).pending
    requires |w'.tasks| == |w.tasks|
    requires forall t :: 0 <= t < |w.tasks| ==>
               && Held(w'.tasks[t]) == Held(w.tasks[t])
               && (Held(w.tasks[t]).pending == [] || TaskKind(w'.tasks[t]) == TaskKind(w.tasks[t]))
    ensures Placed(w')
  {
    assert forall p: Place, id: nat :: At(w', p, id) <==> At(w, p, id);
    forall id: nat | id in w'.calls ensures exists p: Place :: At(w', p, id) {
      var p :| At(w, p, id);
      assert At(w', p, id);
    }
  }

  /** A whole queue moves into a task that held nothing. */
  lemma TakePlaced(w: World, w': World, kind: Kind, t: nat, task: Task)
    requires Placed(w) && w'.calls == w.calls && w'.log == w.log && t < |w.tasks|
    requires w'.tasks == w.tasks[t := task] && Held(w.tasks[t]).pending == []
    requires Waiting(w', kind).pending == [] && Waiting(w', Other(kind)).pending == Waiting(w, Other(kind)).pending
    requires Held(task).pending == Waiting(w, kind).pending
    requires Held(task).pending == [] || TaskKind(task) == kind
    ensures Placed(w')
  {
    forall p: Place, id: nat | At(w', p, id)
      ensures At(w, if p == InTask(t) then InQueue(kind) else p, id)
      ensures p != InQueue(kind)
    {
      assert p == InQueue(Other(kind)) ==> At(w, p, id);
    }
    forall id: nat | id in w'.calls ensures exists p: Place :: At(w', p, id) {
      var p :| At(w, p, id);
      assert p.InQueue? ==> p.kind == kind || p.kind == Other(kind);
      assert At(w', if p == InQueue(kind) then InTask(t) else p, id);
    }
    assert Known(w') by {
      forall p: Place, id: nat | At(w', p, id)
        ensures id in w'.calls && w'.calls[id].kind == PlaceKind(w', p)
      {
        var q := if p == InTask(t) then InQueue(kind) else p;
        assert At(w, q, id);
      }
    }
  }

  lemma NoKeysNoWaiters(q: Queue)
    requires QueueOk(q)
    ensures q.keys == {} <==> q.pending == []
  {
    UnionKeysMembers(q.pending);
    assert q.pending != [] ==> q.pending[0].keys <= q.keys;
  }

  lemma FirePlaced(w: World, t: nat, items: seq<Item>)
    requires Placed(w) && Watchful(w) && t < |w.tasks| && w.tasks[t].Sleeping? && w.entry.Some?
    ensures Placed(FireNext(w, t, items))
  {
    var w' := FireNext(w, t, items);
    var batch := Waiting(w, w.tasks[t].kind);
    NoKeysNoWaiters(batch);
    TakePlaced(w, w', w.tasks[t].kind, t, w'.tasks[t]);
  }

  /** Settling a batch: its task gives up the waiters, and the log gains one event for each. */
  ghost predicate Settles(w: World, w': World, t: nat, events: seq<Event>) {
    && w'.calls == w.calls && t < |w.tasks|
    && |w'.tasks| == |w.tasks| && w'.tasks == w.tasks[t := w'.tasks[t]] && Held(w'.tasks[t]) == EMPTY_QUEUE
    && w'.log == w.log + events
    && Waiting(w', Once).pending == Waiting(w, Once).pending
    && Waiting(w', Streaming).pending == Waiting(w, Streaming).pending
    && var ws := Held(w.tasks[t]).pending;
       |events| == |ws| &&
       forall i :: 0 <= i < |ws| ==> events[i].id == ws[i].id && (events[i].Reply? <==> TaskKind(w.tasks[t]).Once?)
  }

  lemma SettledCameFrom(w: World, w': World, t: nat, events: seq<Event>, p: Place, id: nat)
    requires Settles(w, w', t, events) && At(w', p, id)
    ensures At(w, if p.InLog? && |w.log| <= p.index then InTask(t) else p, id)
    ensures p != InTask(t)
    ensures p.InLog? && |w.log| <= p.index ==>
              p.index - |w.log| < |Held(w.tasks[t]).pending| && Held(w.tasks[t]).pending[p.index - |w.log|].id == id
  {
    var ws := Held(w.tasks[t]).pending;
    if p.InLog? && |w.log| <= p.index {
      assert ws[p.index - |w.log|].id == id;
    }
  }

  lemma SettledGoesTo(w: World, w': World, t: nat, events: seq<Event>, p: Place, id: nat)
    requires Settles(w, w', t, events) && At(w, p, id)
    ensures exists q: Place :: At(w', q, id)
  {
    if p == InTask(t) {
      var i :| 0 <= i < |Held(w.tasks[t]).pending| && Held(w.tasks[t]).pending[i].id == id;
      assert At(w', InLog(|w.log| + i), id);
    } else {
      assert At(w', p, id);
    }
  }

  lemma SettlePlaced(w: World, w': World, t: nat, events: seq<Event>)
    requires Placed(w) && Settles(w, w', t, events)
    ensures Placed(w')
  {
    forall p: Place, id: nat | At(w', p, id) ensures id in w'.calls && w'.calls[id].kind == PlaceKind(w', p) {
      SettledCameFrom(w, w', t, events, p, id);
    }
    forall p: Place, q: Place, id: nat | At(w', p, id) && At(w', q, id) ensures p == q {
      SettledCameFrom(w, w', t, events, p, id);
      SettledCameFrom(w, w', t, events, q, id);
      assert DistinctIds(Held(w.tasks[t]).pending);
    }
    forall id: nat | id in w'.calls ensures exists p: Place :: At(w', p, id) {
      var p :| At(w, p, id);
      SettledGoesTo(w, w', t, events, p, id);
    }
  }

  lemma FreshNowhere(w: World, id: nat)
    requires Known(w) && id !in w.calls
    ensures forall kind: Kind, i :: 0 <= i < |Waiting(w, kind).pending| ==> Waiting(w, kind).pending[i].id != id
  {
    forall kind: Kind, i | 0 <= i < |Waiting(w, kind).pending|
      ensures Waiting(w, kind).pending[i].id != id
    {
      assert At(w, InQueue(kind), Waiting(w, kind).pending[i].id);
    }
  }

  /** A request answered at once goes straight to the log. */
  ghost predicate AnsweredAtOnce(w: World, w': World, kind: Kind, id: nat, call: Call, event: Event) {
    && id !in w.calls && w'.calls == w.calls[id := call] && call.kind == kind
    && w'.tasks == w.tasks && w'.log == w.log + [event] && event.id == id && (event.Reply? <==> kind.Once?)
    && Waiting(w', Once).pending == Waiting(w, Once).pending
    && Waiting(w', Streaming).pending == Waiting(w, Streaming).pending
  }

  lemma ImmediatePlaced(w: World, w': World, kind: Kind, id: nat, call: Call, event: Event)
    requires Placed(w) && AnsweredAtOnce(w, w', kind, id, call, event)
    ensures Placed(w')
  {
    var there := InLog(|w.log|);
    forall p: Place, x: nat | At(w', p, x) ensures (p == there && x == id) || (p != there && At(w, p, x)) {}
    forall x: nat | x in w'.calls ensures exists p: Place :: At(w', p, x) {
      if x == id {
        assert At(w', there, x);
      } else {
        var p :| At(w, p, x);
        assert At(w', p, x);
      }
    }
  }

  lemma DistinctSnoc(ws: seq<Waiter>, wt: Waiter)
    requires DistinctIds(ws) && forall i :: 0 <= i < |ws| ==> ws[i].id != wt.id
    ensures DistinctIds(ws + [wt])
  {}

  /** A request joins its queue; the caller may owe a fetch, which holds nothing. */
  ghost predicate Joins(w: World, w': World, kind: Kind, id: nat, call: Call, wt: Waiter, more: seq<Task>) {
    && id !in w.calls && w'.calls == w.calls[id := call] && call.kind == kind && wt.id == id
    && w'.log == w.log && w'.tasks == w.tasks + more
    && (forall t :: 0 <= t < |more| ==> Held(more[t]).pending == [])
    && Waiting(w', Other(kind)).pending == Waiting(w, Other(kind)).pending
    && Waiting(w', kind).pending == Waiting(w, kind).pending + [wt]
  }

  lemma JoinedFrom(w: World, w': World, kind: Kind, id: nat, call: Call, wt: Waiter, more: seq<Task>, p: Place, x: nat)
    requires Joins(w, w', kind, id, call, wt, more)
    ensures At(w', p, x) <==> (p == InQueue(kind) && x == id) || At(w, p, x)
  {
    AmongSnoc(Waiting(w, kind).pending, wt, x);
    if p.InQueue? && p.kind != kind {
      assert p == InQueue(Other(kind));
    }
  }

  lemma JoinPlaced(w: World, w': World, kind: Kind, id: nat, call: Call, wt: Waiter, more: seq<Task>)
    requires Placed(w) && Joins(w, w', kind, id, call, wt, more)
    ensures Placed(w')
  {
    FreshNowhere(w, id);
    DistinctSnoc(Waiting(w, kind).pending, wt);
    forall p: Place, x: nat ensures At(w', p, x) <==> (p == InQueue(kind) && x == id) || At(w, p, x) {
      JoinedFrom(w, w', kind, id, call, wt, more, p, x);
    }
    forall x: nat | x in w'.calls ensures exists p: Place :: At(w', p, x) {
      if x == id {
        assert At(w', InQueue(kind), x);
      } else {
        var p :| At(w, p, x);
        assert At(w', p, x);
      }
    }
  }

  /** A request fills its queue, and the whole queue leaves as a new task. */
  ghost predicate Leaves(w: World, w': World, kind: Kind, id: nat, call: Call, wt: Waiter, task: Task) {
    && id !in w.calls && w'.calls == w.calls[id := call] && call.kind == kind && wt.id == id
    && w'.log == w.log && w'.tasks == w.tasks + [task] && TaskKind(task) == kind
    && Waiting(w', Other(kind)).pending == Waiting(w, Other(kind)).pending
    && Waiting(w', kind).pending == [] && Held(task).pending == Waiting(w, kind).pending + [wt]
  }

  lemma LeftFrom(w: World, w': World, kind: Kind, id: nat, call: Call, wt: Waiter, task: Task, p: Place, x: nat)
    requires Leaves(w, w', kind, id, call, wt, task) && At(w', p, x)
    ensures p != InQueue(kind)
    ensures if p == InTask(|w.tasks|) then x == id || At(w, InQueue(kind), x) else At(w, p, x)
  {
    AmongSnoc(Waiting(w, kind).pending, wt, x);
    assert p == InQueue(Other(kind)) ==> At(w, p, x);
  }

  lemma LeavesTo(w: World, w': World, kind: Kind, id: nat, call: Call, wt: Waiter, task: Task, x: nat)
    requires SomePlace(w) && Leaves(w, w', kind, id, call, wt, task) && x in w'.calls
    ensures exists p: Place :: At(w', p, x)
  {
    AmongSnoc(Waiting(w, kind).pending, wt, x);
    if x == id {
      assert At(w', InTask(|w.tasks|), x);
    } else {
      var p :| At(w, p, x);
      assert p.InQueue? ==> p.kind == kind || p.kind == Other(kind);
      assert At(w', if p == InQueue(kind) then InTask(|w.tasks|) else p, x);
    }
  }

  lemma LeavePlaced(w: World, w': World, kind: Kind, id: nat, call: Call, wt: Waiter, task: Task)
    requires Placed(w) && Leaves(w, w', kind, id, call, wt, task)
    ensures Placed(w')
  {
    FreshNowhere(w, id);
    DistinctSnoc(Waiting(w, kind).pending, wt);
    forall p: Place, x: nat | At(w', p, x) ensures x in w'.calls && w'.calls[x].kind == PlaceKind(w', p) {
      LeftFrom(w, w', kind, id, call, wt, task, p, x);
    }
    forall p: Place, q: Place, x: nat | At(w', p, x) && At(w', q, x) ensures p == q {
      LeftFrom(w, w', kind, id, call, wt, task, p, x);
      LeftFrom(w, w', kind, id, call, wt, task, q, x);
    }
    forall x: nat | x in w'.calls ensures exists p: Place :: At(w', p, x) {
      LeavesTo(w, w', kind, id, call, wt, task, x);
    }
  }

  lemma LoadPlaced(w: World, cfg: Config, kind: Kind, id: nat, ks: seq<Key>, order: seq<(Key, Value)>, s: SplitResult)
    requires Placed(w) && id !in w.calls && (w.entry.None? ==> w.tasks == [])
    ensures Placed(LoadSorted(w, cfg, kind, id, ks, order, s))
  {
    var w' := LoadSorted(w, cfg, kind, id, ks, order, s);
    var a := AdmitSorted(CoreOf(w, cfg), kind, id, s, cfg.maxBatch).1;
    var wt := Waiter(id, s.misses, if kind.Once? then s.hits else map[]);
    LoadMoves(w, cfg, kind, id, ks, order, s);
    match a
    case Immediate(_) => ImmediatePlaced(w, w', kind, id, w'.calls[id], w'.log[|w.log|]);
    case Queued(ImmediateLoad(_), _) => LeavePlaced(w, w', kind, id, w'.calls[id], wt, NewTasks(kind, a)[0]);
    case Queued(_, _) => JoinPlaced(w, w', kind, id, w'.calls[id], wt, NewTasks(kind, a));
  }

  /** A new call is answered at once, leaves with its whole queue, or joins it. */
  lemma LoadMoves(w: World, cfg: Config, kind: Kind, id: nat, ks: seq<Key>, order: seq<(Key, Value)>, s: SplitResult)
    requires id !in w.calls
    ensures var w' := LoadSorted(w, cfg, kind, id, ks, order, s);
            var a := AdmitSorted(CoreOf(w, cfg), kind, id, s, cfg.maxBatch).1;
            var wt := Waiter(id, s.misses, if kind.Once? then s.hits else map[]);
            && id in w'.calls
            && match a
               case Immediate(_) =>
                 |w.log| < |w'.log| && AnsweredAtOnce(w, w', kind, id, w'.calls[id], w'.log[|w.log|])
               case Queued(ImmediateLoad(_), _) => Leaves(w, w', kind, id, w'.calls[id], wt, NewTasks(kind, a)[0])
               case Queued(_, _) => Joins(w, w', kind, id, w'.calls[id], wt, NewTasks(kind, a))
  {
    if s.misses == {} {
      assert LoadSorted(w, cfg, kind, id, ks, order, s).tasks == w.tasks;
    }
  }

  lemma CompletePlaced(w: World, t: nat, outcome: Result<map<Key, Value>, Error>, pairs: seq<(Key, Value)>)
    requires Placed(w) && t < |w.tasks| && w.tasks[t].Loading? && w.entry.Some?
    ensures Placed(CompleteNext(w, t, outcome, pairs))
  {
    var ws := Held(w.tasks[t]).pending;
    SettlePlaced(w, CompleteNext(w, t, outcome, pairs), t,
                 if outcome.Ok? then Replies(outcome.value, ws) else Failures(outcome.error, ws));
  }

  lemma PumpPlaced(w: World, t: nat)
    requires Placed(w) && t < |w.tasks| && w.tasks[t].Pumping? && w.entry.Some? && w.tasks[t].at < |w.tasks[t].items|
    ensures Placed(PumpNext(w, t))
  {
    if w.tasks[t].items[w.tasks[t].at].Err? {
      SettlePlaced(w, PumpNext(w, t), t, Closings(Held(w.tasks[t]).pending));
    } else {
      SamePlaces(w, PumpNext(w, t));
    }
  }

  lemma StepPlaced(w: World, cfg: Config, s: Step)
    requires Placed(w) && Watchful(w) && Enabled(w, cfg, s)
    ensures Placed(Next(w, cfg, s))
  {
    match s
    case Load(kind, id, ks, order) =>
      LoadPlaced(w, cfg, kind, id, ks, order, Sort(CoreOf(w, cfg).cache, ks, CoreOf(w, cfg).disabled || w.allDisabled));
    case Fire(t, items) => FirePlaced(w, t, items);
    case Complete(t, outcome, pairs) => CompletePlaced(w, t, outcome, pairs);
    case EndStream(t) => SettlePlaced(w, EndNext(w, t), t, Closings(Held(w.tasks[t]).pending));
    case Pump(t) => PumpPlaced(w, t);
    case Spawn(t, items) => SamePlaces(w, SpawnNext(w, t, items));
    case _ =>
      QuietStepShape(w, cfg, s);
      SamePlaces(w, Next(w, cfg, s));
  }

  // ----- every run -----

  /** The states a data loader can get into. */
  ghost predicate Sound(w: World) {
    Watchful(w) && Placed(w)
  }

  datatype Run = Run(worlds: seq<World>, steps: seq<Step>)

  ghost predicate StepAt(r: Run, cfg: Config, i: nat)
    requires i < |r.steps| && |r.worlds| == |r.steps| + 1
  {
    Enabled(r.worlds[i], cfg, r.steps[i]) && r.worlds[i + 1] == Next(r.worlds[i], cfg, r.steps[i])
  }

  ghost predicate IsRun(r: Run, cfg: Config) {
    && |r.worlds| == |r.steps| + 1
    && forall i :: 0 <= i < |r.steps| ==> StepAt(r, cfg, i)
  }

  /** A run without its last step. */
  function Front(r: Run): Run
    requires |r.worlds| == |r.steps| + 1 && r.steps != []
  {
    Run(r.worlds[..|r.steps|], r.steps[..|r.steps| - 1])
  }

  lemma FrontRun(r: Run, cfg: Config)
    requires IsRun(r, cfg) && r.steps != []
    ensures IsRun(Front(r), cfg) && Front(r).worlds[0] == r.worlds[0]
    ensures Last(Front(r)) == r.worlds[|r.steps| - 1] && StepAt(r, cfg, |r.steps| - 1)
  {
    var f := Front(r);
    forall i | 0 <= i < |f.steps| ensures StepAt(f, cfg, i) {
      assert StepAt(r, cfg, i);
    }
  }

  function Last(r: Run): World
    requires r.worlds != []
  {
    r.worlds[|r.worlds| - 1]
  }

  /** In every reachable state the waiting keys of each queue are the union of its waiters' keys, no
      waiter waits for nothing, a nonempty queue has a delayed fetch coming, and each request ever
      made is in exactly one place. */
  lemma {:induction false} ReachableSound(r: Run, cfg: Config)
    requires IsRun(r, cfg) && r.worlds[0] == START
    ensures Sound(Last(r))
    decreases |r.steps|
  {
    if r.steps != [] {
      var s := r.steps[|r.steps| - 1];
      FrontRun(r, cfg);
      ReachableSound(Front(r), cfg);
      StepWatchful(Last(Front(r)), cfg, s);
      StepPlaced(Last(Front(r)), cfg, s);
    }
  }

  // ----- the entry of the shared map -----

  /** The operations that create the entry if it is missing; `enable_cache` only looks it up. */
  predicate CreatesEntry(s: Step) {
    s.Load? || s.Feed? || s.ClearOne? || s.ClearAll?
  }

  lemma StepEntry(w: World, cfg: Config, s: Step)
    requires Enabled(w, cfg, s)
    ensures Next(w, cfg, s).entry.Some? <==> w.entry.Some? || CreatesEntry(s)
  {}

  /** In every run the lookup that `enable_cache` unwraps succeeds exactly when something was loaded,
      fed or cleared before. */
  lemma {:induction false} EnableCacheFindsEntry(r: Run, cfg: Config, enable: bool)
    requires IsRun(r, cfg) && r.worlds[0] == START
    ensures Enabled(Last(r), cfg, EnableCache(enable)) <==> exists i :: 0 <= i < |r.steps| && CreatesEntry(r.steps[i])
    decreases |r.steps|
  {
    if r.steps != [] {
      var n := |r.steps| - 1;
      FrontRun(r, cfg);
      EnableCacheFindsEntry(Front(r), cfg, enable);
      StepEntry(Last(Front(r)), cfg, r.steps[n]);
      assert forall i :: 0 <= i < n ==> Front(r).steps[i] == r.steps[i];
      if i :| 0 <= i < |r.steps| && CreatesEntry(r.steps[i]) {
        assert i < n ==> CreatesEntry(Front(r).steps[i]);
      }
    }
  }

  /** On a fresh loader it fails, also after the caches of all loaders have been switched. */
  lemma EnableCacheOnFreshLoader(cfg: Config, all: bool, enable: bool)
    ensures var r := Run([START, START.(allDisabled := !all)], [EnableAllCache(all)]);
            && IsRun(r, cfg)
            && !Enabled(r.worlds[0], cfg, EnableCache(enable)) && !Enabled(Last(r), cfg, EnableCache(enable))
  {
    var r := Run([START, START.(allDisabled := !all)], [EnableAllCache(all)]);
    assert StepAt(r, cfg, 0);
  }

  // ----- running the outstanding tasks to completion -----

  predicate IsTaskStep(s: Step) {
    s.Spawn? || s.Fire? || s.Complete? || s.Pump? || s.EndStream?
  }

  /** Work left before the loader is asked: a task to spawn, a timer to wait for. */
  function Ahead(t: Task): nat {
    match t
    case OwedFetch(_) => 2
    case Sleeping(_, _) => 1
    case OwedLoad(_, _) => 1
    case _ => 0
  }

  /** Work left once the loader has been asked: its answer, or the rest of its stream and the end. */
  function Answering(t: Task): nat {
    match t
    case Loading(_, _) => 1
    case Pumping(_, _, items, at) => if at <= |items| then 1 + |items| - at else 1
    case _ => 0
  }

  function Total(tasks: seq<Task>, f: Task -> nat): nat {
    if tasks == [] then 0 else Total(tasks[..|tasks| - 1], f) + f(tasks[|tasks| - 1])
  }

  lemma {:induction false} TotalUpdate(tasks: seq<Task>, f: Task -> nat, t: nat, task: Task)
    requires t < |tasks|
    ensures Total(tasks[t := task], f) == Total(tasks, f) - f(tasks[t]) + f(task)
  {
    var n := |tasks| - 1;
    if t == n {
      assert tasks[t := task][..n] == tasks[..n];
    } else {
      TotalUpdate(tasks[..n], f, t, task);
      assert tasks[t := task][..n] == tasks[..n][t := task];
    }
  }

  function AheadTotal(w: World): nat { Total(w.tasks, Ahead) }

  function AnsweringTotal(w: World): nat { Total(w.tasks, Answering) }

  lemma TaskStepShrinks(w: World, cfg: Config, s: Step)
    requires Enabled(w, cfg, s) && IsTaskStep(s)
    ensures var w' := Next(w, cfg, s);
            && |w'.tasks| == |w.tasks| && w'.tasks == w.tasks[s.tid := w'.tasks[s.tid]]
            && var old', new' := w.tasks[s.tid], w'.tasks[s.tid];
               Ahead(new') < Ahead(old') || (Ahead(new') == Ahead(old') && Answering(new') < Answering(old'))
  {}

  /** Every task step brings the loader closer to rest, however the steps interleave. */
  lemma TaskStepDecreases(w: World, cfg: Config, s: Step)
    requires Enabled(w, cfg, s) && IsTaskStep(s)
    ensures var w' := Next(w, cfg, s);
            || AheadTotal(w') < AheadTotal(w)
            || (AheadTotal(w') == AheadTotal(w) && AnsweringTotal(w') < AnsweringTotal(w))
  {
    TaskStepShrinks(w, cfg, s);
    var t, task := s.tid, Next(w, cfg, s).tasks[s.tid];
    TotalUpdate(w.tasks, Ahead, t, task);
    TotalUpdate(w.tasks, Answering, t, task);
  }

  predicate Resting(t: Task) {
    t.Drained? || t.Finished?
  }

  /** No task can be stuck: whatever state it is in, one of its steps is enabled, and the lookups of
      the shared record that the code unwraps find it. */
  lemma TaskStepEnabled(w: World, cfg: Config, t: nat, items: seq<Item>) returns (s: Step)
    requires Sound(w) && t < |w.tasks| && !Resting(w.tasks[t])
    ensures IsTaskStep(s) && s.tid == t && Enabled(w, cfg, s)
  {
    match w.tasks[t]
    case OwedLoad(_, _) => s := Spawn(t, items);
    case OwedFetch(_) => s := Spawn(t, items);
    case Sleeping(_, _) => s := Fire(t, items);
    case Loading(_, _) => s := Complete(t, Ok(map[]), []);
    case Pumping(_, _, items, at) => s := if at < |items| then Pump(t) else EndStream(t);
  }

  ghost predicate Answered(w: World, id: nat) {
    exists i :: 0 <= i < |w.log| && w.log[i].id == id
  }

  /** When all tasks rest, every request has been answered, exactly once, with an event of its kind,
      and nobody is left in a queue. */
  lemma RestMeansAnswered(w: World)
    requires Sound(w) && forall t :: 0 <= t < |w.tasks| ==> Resting(w.tasks[t])
    ensures Waiting(w, Once) == EMPTY_QUEUE && Waiting(w, Streaming) == EMPTY_QUEUE
    ensures forall id: nat :: id in w.calls <==> Answered(w, id)
    ensures forall i, j :: 0 <= i < j < |w.log| ==> w.log[i].id != w.log[j].id
    ensures forall i :: 0 <= i < |w.log| ==>
              w.log[i].id in w.calls && (w.log[i].Reply? <==> w.calls[w.log[i].id].kind.Once?)
  {
    NoKeysNoWaiters(Waiting(w, Once));
    NoKeysNoWaiters(Waiting(w, Streaming));
    forall id: nat | id in w.calls ensures Answered(w, id) {
      var p :| At(w, p, id);
      assert p.InLog?;
    }
    forall i | 0 <= i < |w.log|
      ensures w.log[i].id in w.calls && (w.log[i].Reply? <==> w.calls[w.log[i].id].kind.Once?)
    {
      assert At(w, InLog(i), w.log[i].id);
    }
    forall i, j | 0 <= i < j < |w.log| ensures w.log[i].id != w.log[j].id {
      if w.log[i].id == w.log[j].id {
        assert At(w, InLog(i), w.log[i].id) && At(w, InLog(j), w.log[i].id);
        assert false;
      }
    }
  }

  ghost predicate AtRest(w: World) {
    forall t :: 0 <= t < |w.tasks| ==> Resting(w.tasks[t])
  }

  /** A scheduler, together with a loader and a clock: as long as something is outstanding it names
      the next task step, and what the loader answers in it. */
  ghost predicate Schedules(choose: World -> Step, cfg: Config) {
    forall v: World :: Sound(v) && !AtRest(v) ==> Enabled(v, cfg, choose(v)) && IsTaskStep(choose(v))
  }

  lemma RunCons(w: World, cfg: Config, s: Step, rest: Run)
    requires Enabled(w, cfg, s) && IsRun(rest, cfg) && rest.worlds[0] == Next(w, cfg, s)
    ensures IsRun(Run([w] + rest.worlds, [s] + rest.steps), cfg)
  {
    var r := Run([w] + rest.worlds, [s] + rest.steps);
    forall i | 0 <= i < |r.steps| ensures StepAt(r, cfg, i) {
      if i > 0 {
        assert StepAt(rest, cfg, i - 1);
        assert r.worlds[i] == rest.worlds[i - 1] && r.steps[i] == rest.steps[i - 1];
      }
    }
  }

  lemma TaskStepKeepsCalls(w: World, cfg: Config, s: Step)
    requires Enabled(w, cfg, s) && IsTaskStep(s)
    ensures Next(w, cfg, s).calls == w.calls
  {}

  ghost predicate Follows(r: Run, choose: World -> Step) {
    |r.worlds| == |r.steps| + 1 && forall i :: 0 <= i < |r.steps| ==> r.steps[i] == choose(r.worlds[i])
  }

  lemma FollowsCons(w: World, rest: Run, choose: World -> Step)
    requires Follows(rest, choose)
    ensures Follows(Run([w] + rest.worlds, [choose(w)] + rest.steps), choose)
  {
    var r := Run([w] + rest.worlds, [choose(w)] + rest.steps);
    forall i | 0 <= i < |r.steps| ensures r.steps[i] == choose(r.worlds[i]) {
      if i > 0 {
        assert r.steps[i] == rest.steps[i - 1] && r.worlds[i] == rest.worlds[i - 1];
      }
    }
  }

  /** All requests have been answered, and none of them twice. */
  ghost predicate AllAnswered(w: World) {
    && (forall id: nat :: id in w.calls ==> Answered(w, id))
    && (forall i, j :: 0 <= i < j < |w.log| ==> w.log[i].id != w.log[j].id)
  }

  /** Whatever the scheduler and the loader do, and whoever has been cancelled, running the
      outstanding tasks of a reachable state with no new calls comes to rest, and by then every
      request has been answered exactly once. */
  lemma {:induction false} RunsToRest(w: World, cfg: Config, choose: World -> Step) returns (r: Run)
    requires Sound(w) && Schedules(choose, cfg)
    ensures IsRun(r, cfg) && r.worlds[0] == w && Follows(r, choose)
    ensures Sound(Last(r)) && AtRest(Last(r)) && Last(r).calls == w.calls && AllAnswered(Last(r))
    decreases AheadTotal(w), AnsweringTotal(w)
  {
    if AtRest(w) {
      RestMeansAnswered(w);
      r := Run([w], []);
    } else {
      var s := choose(w);
      StepWatchful(w, cfg, s);
      StepPlaced(w, cfg, s);
      TaskStepDecreases(w, cfg, s);
      TaskStepKeepsCalls(w, cfg, s);
      var rest := RunsToRest(Next(w, cfg, s), cfg, choose);
      RunCons(w, cfg, s, rest);
      FollowsCons(w, rest, choose);
      r := Run([w] + rest.worlds, [s] + rest.steps);
      assert Last(r) == Last(rest);
    }
  }
}
