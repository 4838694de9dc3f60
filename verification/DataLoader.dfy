/** The data loader as a state machine: one loader, one key/value type, any number of concurrent
    callers.

    A step is one stretch of code that runs while the lock of the shared record is held, the spawning
    of one task, or one answer of the user's loader.  A caller that leaves the lock with
    `ImmediateLoad` or `StartFetch` owes a task until the `Spawn` step; other callers may run in
    between. */
module DataLoader {
  import opened Wrappers
  import opened CacheStorage
  import opened Batching

  type Item = Result<(Key, Value), Error>

  datatype Config = Config(maxBatch: nat, initial: Store)

  datatype Task =
    | OwedLoad(kind: Kind, batch: Queue)
    | OwedFetch(kind: Kind)
    | Sleeping(kind: Kind, disabled: bool)
    | Loading(batch: Queue, disabled: bool)
    | Pumping(batch: Queue, disabled: bool, items: seq<Item>, at: nat)
    | Drained(batch: Queue, items: seq<Item>, at: nat)
    | Finished

  /** What a caller asked for; `first` is what a stream caller was sent from the cache. */
  datatype Call = Call(kind: Kind, keys: seq<Key>, first: seq<Item>)

  datatype World = World(
    entry: Option<Core>,
    allDisabled: bool,
    tasks: seq<Task>,
    calls: map<nat, Call>,
    log: seq<Event>,
    channels: map<nat, seq<Item>>,
    cancelled: set<nat>)

  const START := World(None, false, [], map[], [], map[], {})

  /** The waiters a task still has to answer. */
  function Held(t: Task): Queue {
    match t
    case OwedLoad(_, b) => b
    case Loading(b, _) => b
    case Pumping(b, _, _, _) => b
    case _ => EMPTY_QUEUE
  }

  function TaskKind(t: Task): Kind {
    match t
    case OwedLoad(kind, _) => kind
    case OwedFetch(kind) => kind
    case Sleeping(kind, _) => kind
    case Pumping(_, _, _, _) => Streaming
    case Drained(_, _, _) => Streaming
    case _ => Once
  }

  function CoreOf(w: World, cfg: Config): Core {
    if w.entry.Some? then w.entry.value else Core(EMPTY_QUEUE, EMPTY_QUEUE, cfg.initial, false)
  }

  function Waiting(w: World, kind: Kind): Queue {
    if w.entry.Some? then w.entry.value.Q(kind) else EMPTY_QUEUE
  }

  // ----- the steps -----

  datatype Step =
    | Load(kind: Kind, id: nat, keys: seq<Key>, order: seq<(Key, Value)>)
    | Spawn(tid: nat, items: seq<Item>)
    | Fire(tid: nat, items: seq<Item>)
    | Complete(tid: nat, outcome: Result<map<Key, Value>, Error>, pairs: seq<(Key, Value)>)
    | Pump(tid: nat)
    | EndStream(tid: nat)
    | Feed(values: seq<(Key, Value)>)
    | ClearOne(key: Key)
    | ClearAll
    | EnableCache(enable: bool)
    | EnableAllCache(enable: bool)
    | Cancel(id: nat)

  function AsItems(pairs: seq<(Key, Value)>): seq<Item> {
    seq(|pairs|, i requires 0 <= i < |pairs| => Ok(pairs[i]))
  }

  function Admitted(w: World, cfg: Config, kind: Kind, id: nat, ks: seq<Key>): (Core, Admission) {
    Admit(CoreOf(w, cfg), kind, id, ks, w.allDisabled, cfg.maxBatch)
  }

  function Cached(a: Admission): map<Key, Value> {
    match a
    case Immediate(values) => values
    case Queued(_, cached) => cached
  }

  ghost predicate Enabled(w: World, cfg: Config, s: Step) {
    match s
    case Load(kind, id, ks, order) =>
      id !in w.calls && Enumerates(order, Cached(Admitted(w, cfg, kind, id, ks).1))
    case Spawn(t, _) => t < |w.tasks| && (w.tasks[t].OwedLoad? || w.tasks[t].OwedFetch?)
    case Fire(t, _) => t < |w.tasks| && w.tasks[t].Sleeping? && w.entry.Some?
    case Complete(t, outcome, pairs) =>
      && t < |w.tasks| && w.tasks[t].Loading? && w.entry.Some?
      && (outcome.Ok? ==> Enumerates(pairs, outcome.value))
    case Pump(t) =>
      t < |w.tasks| && w.tasks[t].Pumping? && w.entry.Some? && w.tasks[t].at < |w.tasks[t].items|
    case EndStream(t) => t < |w.tasks| && w.tasks[t].Pumping? && |w.tasks[t].items| <= w.tasks[t].at
    case EnableCache(_) => w.entry.Some?
    case Cancel(id) => id in w.calls
    case _ => true
  }

  function NewTasks(kind: Kind, a: Admission): seq<Task> {
    match a
    case Immediate(_) => []
    case Queued(ImmediateLoad(batch), _) => [OwedLoad(kind, batch)]
    case Queued(StartFetch, _) => [OwedFetch(kind)]
    case Queued(Delay, _) => []
  }

  function LoadNext(w: World, cfg: Config, kind: Kind, id: nat, ks: seq<Key>, order: seq<(Key, Value)>): World {
    LoadSorted(w, cfg, kind, id, ks, order, Sort(CoreOf(w, cfg).cache, ks, CoreOf(w, cfg).disabled || w.allDisabled))
  }

  function LoadSorted(w: World, cfg: Config, kind: Kind, id: nat, ks: seq<Key>, order: seq<(Key, Value)>,
                      s: SplitResult): World {
    var (core, a) := AdmitSorted(CoreOf(w, cfg), kind, id, s, cfg.maxBatch);
    var first := if kind.Streaming? then AsItems(order) else [];
    w.(entry := Some(core),
       tasks := w.tasks + NewTasks(kind, a),
       calls := w.calls[id := Call(kind, ks, first)],
       log := w.log + if a.Queued? then []
                      else if kind.Once? then [Reply(id, Ok(a.values))]
                      else [Closed(id)],
       channels := w.channels[id := first])
  }

  function Begin(kind: Kind, batch: Queue, disabled: bool, items: seq<Item>): Task {
    if kind.Once? then Loading(batch, disabled) else Pumping(batch, disabled, items, 0)
  }

  function SpawnNext(w: World, t: nat, items: seq<Item>): World
    requires t < |w.tasks| && (w.tasks[t].OwedLoad? || w.tasks[t].OwedFetch?)
  {
    var task := w.tasks[t];
    w.(tasks := w.tasks[t := if task.OwedLoad? then Begin(task.kind, task.batch, w.allDisabled, items)
                             else Sleeping(task.kind, w.allDisabled)])
  }

  /** The timer of a delayed fetch ran out: take whatever is waiting, if anything. */
  function FireNext(w: World, t: nat, items: seq<Item>): World
    requires t < |w.tasks| && w.tasks[t].Sleeping? && w.entry.Some?
  {
    var Sleeping(kind, disabled) := w.tasks[t];
    var batch := w.entry.value.Q(kind);
    w.(entry := Some(w.entry.value.WithQ(kind, EMPTY_QUEUE)),
       tasks := w.tasks[t := if batch.keys == {} then Finished else Begin(kind, batch, disabled, items)])
  }

  function CompleteNext(w: World, t: nat, outcome: Result<map<Key, Value>, Error>, pairs: seq<(Key, Value)>): World
    requires t < |w.tasks| && w.tasks[t].Loading? && w.entry.Some?
  {
    var Loading(batch, disabled) := w.tasks[t];
    var w' := w.(tasks := w.tasks[t := Finished]);
    match outcome
    case Ok(values) =>
      var core := w.entry.value;
      w'.(entry := Some(core.(cache := if core.disabled || disabled then core.cache else PutAll(core.cache, pairs))),
          log := w.log + Replies(values, batch.pending))
    case Err(err) => w'.(log := w.log + Failures(err, batch.pending))
  }

  predicate Wants(wt: Waiter, item: Item) {
    item.Err? || item.value.0 in wt.keys
  }

  function Sent(channels: map<nat, seq<Item>>, id: nat): seq<Item> {
    if id in channels then channels[id] else []
  }

  /** Send one stream item to every waiter that wants it. */
  function Deliver(channels: map<nat, seq<Item>>, ws: seq<Waiter>, item: Item): map<nat, seq<Item>> {
    if ws == [] then channels
    else
      var channels', wt := Deliver(channels, ws[..|ws| - 1], item), ws[|ws| - 1];
      if Wants(wt, item) then channels'[wt.id := Sent(channels', wt.id) + [item]] else channels'
  }

  function Closings(ws: seq<Waiter>): seq<Event> {
    seq(|ws|, i requires 0 <= i < |ws| => Closed(ws[i].id))
  }

  function PumpNext(w: World, t: nat): World
    requires t < |w.tasks| && w.tasks[t].Pumping? && w.entry.Some? && w.tasks[t].at < |w.tasks[t].items|
  {
    var Pumping(batch, disabled, items, at) := w.tasks[t];
    var w' := w.(channels := Deliver(w.channels, batch.pending, items[at]));
    match items[at]
    case Ok((k, v)) =>
      var core := w.entry.value;
      w'.(entry := Some(core.(cache := if disabled || core.disabled then core.cache else Put(core.cache, k, v))),
          tasks := w.tasks[t := Pumping(batch, disabled, items, at + 1)])
    case Err(_) =>
      w'.(tasks := w.tasks[t := Drained(batch, items, at + 1)], log := w.log + Closings(batch.pending))
  }

  function EndNext(w: World, t: nat): World
    requires t < |w.tasks| && w.tasks[t].Pumping?
  {
    var Pumping(batch, _, items, at) := w.tasks[t];
    w.(tasks := w.tasks[t := Drained(batch, items, at)], log := w.log + Closings(batch.pending))
  }

  /** The world after an enabled step. */
  function Next(w: World, cfg: Config, s: Step): World
    requires Enabled(w, cfg, s)
  {
    match s
    case Load(kind, id, ks, order) => LoadNext(w, cfg, kind, id, ks, order)
    case Spawn(t, items) => SpawnNext(w, t, items)
    case Fire(t, items) => FireNext(w, t, items)
    case Complete(t, outcome, pairs) => CompleteNext(w, t, outcome, pairs)
    case Pump(t) => PumpNext(w, t)
    case EndStream(t) => EndNext(w, t)
    case Feed(values) => w.(entry := Some(CoreOf(w, cfg).(cache := PutAll(CoreOf(w, cfg).cache, values))))
    case ClearOne(k) => w.(entry := Some(CoreOf(w, cfg).(cache := Pop(CoreOf(w, cfg).cache, k))))
    case ClearAll => w.(entry := Some(CoreOf(w, cfg).(cache := Emptied(CoreOf(w, cfg).cache))))
    case EnableCache(enable) => w.(entry := Some(w.entry.value.(disabled := !enable)))
    case EnableAllCache(enable) => w.(allDisabled := !enable)
    case Cancel(id) => w.(cancelled := w.cancelled + {id})
  }

  // ----- no lost wake-up -----

  ghost predicate QueueOk(q: Queue) {
    && q.keys == UnionKeys(q.pending)
    && forall i :: 0 <= i < |q.pending| ==> q.pending[i].keys != {}
  }

  predicate IsFetch(t: Task, kind: Kind) {
    t == OwedFetch(kind) || (t.Sleeping? && t.kind == kind)
  }

  predicate HasBatch(t: Task) {
    t.OwedLoad? || t.Loading? || t.Pumping?
  }

  /** A nonempty queue always has a delayed fetch, sleeping or still to be spawned, coming for it. */
  ghost predicate Awake(q: Queue, tasks: seq<Task>, kind: Kind) {
    && QueueOk(q)
    && (q.keys != {} ==> exists t :: 0 <= t < |tasks| && IsFetch(tasks[t], kind))
  }

  ghost predicate TaskOk(t: Task) {
    HasBatch(t) ==> QueueOk(Held(t)) && Held(t).keys != {}
  }

  ghost predicate Watchful(w: World) {
    && Awake(Waiting(w, Once), w.tasks, Once)
    && Awake(Waiting(w, Streaming), w.tasks, Streaming)
    && (w.entry.None? ==> w.tasks == [])
    && forall t :: 0 <= t < |w.tasks| ==> TaskOk(w.tasks[t])
  }

  lemma UnionKeysSnoc(ps: seq<Waiter>, wt: Waiter)
    ensures UnionKeys(ps + [wt]) == UnionKeys(ps) + wt.keys
  {
    assert (ps + [wt])[..|ps|] == ps;
  }

  /** A request in a queue that was empty starts a fetch; it waits only behind an earlier one; and a
      full queue leaves as one batch. */
  ghost predicate EnqueuedOk(q: Queue, q': Queue, action: Action) {
    match action
    case ImmediateLoad(b) => q' == EMPTY_QUEUE && QueueOk(b) && b.keys != {}
    case StartFetch => QueueOk(q') && q.keys == {}
    case Delay => QueueOk(q') && q.keys != {}
  }

  lemma EnqueueMeaning(q: Queue, wt: Waiter, maxBatch: nat)
    requires QueueOk(q) && wt.keys != {}
    ensures EnqueuedOk(q, Enqueue(q, wt, maxBatch).0, Enqueue(q, wt, maxBatch).1)
  {
    UnionKeysSnoc(q.pending, wt);
  }

  function Other(kind: Kind): Kind {
    if kind.Once? then Streaming else Once
  }

  lemma AdmitMeaning(core: Core, kind: Kind, id: nat, s: SplitResult, maxBatch: nat)
    requires QueueOk(core.Q(kind))
    ensures var (core', a) := AdmitSorted(core, kind, id, s, maxBatch);
            && core'.disabled == core.disabled && core'.cache == s.cache
            && core'.Q(Other(kind)) == core.Q(Other(kind))
            && if a.Immediate? then core'.Q(kind) == core.Q(kind)
               else EnqueuedOk(core.Q(kind), core'.Q(kind), a.action)
  {
    if s.misses != {} {
      EnqueueMeaning(core.Q(kind), Waiter(id, s.misses, if kind.Once? then s.hits else map[]), maxBatch);
    }
  }

  lemma AwakeAppend(q: Queue, tasks: seq<Task>, kind: Kind, more: seq<Task>)
    requires Awake(q, tasks, kind)
    ensures Awake(q, tasks + more, kind)
  {
    if q.keys != {} {
      var t :| 0 <= t < |tasks| && IsFetch(tasks[t], kind);
      assert (tasks + more)[t] == tasks[t];
    }
  }

  lemma AwakeUpdate(q: Queue, tasks: seq<Task>, kind: Kind, t: nat, task: Task)
    requires Awake(q, tasks, kind) && t < |tasks|
    requires IsFetch(tasks[t], kind) ==> IsFetch(task, kind)
    ensures Awake(q, tasks[t := task], kind)
  {
    if q.keys != {} {
      var u :| 0 <= u < |tasks| && IsFetch(tasks[u], kind);
      assert IsFetch(tasks[t := task][u], kind);
    }
  }

  lemma AdmittedWatchful(w: World, w': World, kind: Kind, a: Admission)
    requires Watchful(w) && w'.entry.Some? && w'.tasks == w.tasks + NewTasks(kind, a)
    requires Waiting(w', Other(kind)) == Waiting(w, Other(kind))
    requires if a.Immediate? then Waiting(w', kind) == Waiting(w, kind)
             else EnqueuedOk(Waiting(w, kind), Waiting(w', kind), a.action)
    ensures Watchful(w')
  {
    AdmittedAwake(Waiting(w, kind), Waiting(w', kind), w.tasks, kind, a);
    AwakeAppend(Waiting(w, Other(kind)), w.tasks, Other(kind), NewTasks(kind, a));
  }

  lemma LoadWatchful(w: World, cfg: Config, kind: Kind, id: nat, ks: seq<Key>, order: seq<(Key, Value)>, s: SplitResult)
    requires Watchful(w)
    ensures Watchful(LoadSorted(w, cfg, kind, id, ks, order, s))
  {
    var w' := LoadSorted(w, cfg, kind, id, ks, order, s);
    var (core', a) := AdmitSorted(CoreOf(w, cfg), kind, id, s, cfg.maxBatch);
    assert CoreOf(w, cfg).Q(kind) == Waiting(w, kind);
    AdmitMeaning(CoreOf(w, cfg), kind, id, s, cfg.maxBatch);
    AdmittedWatchful(w, w', kind, a);
  }

  lemma AdmittedAwake(q: Queue, q': Queue, tasks: seq<Task>, kind: Kind, a: Admission)
    requires Awake(q, tasks, kind)
    requires if a.Immediate? then q' == q else EnqueuedOk(q, q', a.action)
    ensures Awake(q', tasks + NewTasks(kind, a), kind)
  {
    if a.Queued? && a.action.StartFetch? {
      assert IsFetch((tasks + NewTasks(kind, a))[|tasks|], kind);
    } else {
      AwakeAppend(q, tasks, kind, NewTasks(kind, a));
      if q'.keys != {} {
        var t :| 0 <= t < |tasks + NewTasks(kind, a)| && IsFetch((tasks + NewTasks(kind, a))[t], kind);
      }
    }
  }

  /** A step of one task replaces that task and nothing else in the list. */
  lemma TaskStepShape(w: World, cfg: Config, s: Step)
    requires Enabled(w, cfg, s) && (s.Spawn? || s.Complete? || s.Pump? || s.EndStream?)
    ensures var w' := Next(w, cfg, s);
            && |w'.tasks| == |w.tasks| && w'.tasks == w.tasks[s.tid := w'.tasks[s.tid]]
            && Waiting(w', Once) == Waiting(w, Once) && Waiting(w', Streaming) == Waiting(w, Streaming)
            && (w'.entry.Some? <==> w.entry.Some?)
            && (IsFetch(w.tasks[s.tid], Once) ==> IsFetch(w'.tasks[s.tid], Once))
            && (IsFetch(w.tasks[s.tid], Streaming) ==> IsFetch(w'.tasks[s.tid], Streaming))
            && (HasBatch(w'.tasks[s.tid]) ==> HasBatch(w.tasks[s.tid]) && Held(w'.tasks[s.tid]) == Held(w.tasks[s.tid]))
  {}

  lemma TaskWatchful(w: World, cfg: Config, s: Step)
    requires Watchful(w) && Enabled(w, cfg, s) && (s.Spawn? || s.Complete? || s.Pump? || s.EndStream?)
    ensures Watchful(Next(w, cfg, s))
  {
    TaskStepShape(w, cfg, s);
    var w' := Next(w, cfg, s);
    AwakeUpdate(Waiting(w, Once), w.tasks, Once, s.tid, w'.tasks[s.tid]);
    AwakeUpdate(Waiting(w, Streaming), w.tasks, Streaming, s.tid, w'.tasks[s.tid]);
    assert TaskOk(w.tasks[s.tid]);
  }

  lemma FireWatchful(w: World, t: nat, items: seq<Item>)
    requires Watchful(w) && t < |w.tasks| && w.tasks[t].Sleeping? && w.entry.Some?
    ensures Watchful(FireNext(w, t, items))
  {
    var w' := FireNext(w, t, items);
    var kind := w.tasks[t].kind;
    AwakeUpdate(Waiting(w, Other(kind)), w.tasks, Other(kind), t, w'.tasks[t]);
  }

  predicate IsQuiet(s: Step) {
    s.Feed? || s.ClearOne? || s.ClearAll? || s.EnableCache? || s.EnableAllCache? || s.Cancel?
  }

  /** Steps on the cache, the switches and the set of cancelled callers leave all requests alone. */
  lemma QuietStepShape(w: World, cfg: Config, s: Step)
    requires Enabled(w, cfg, s) && IsQuiet(s)
    ensures var w' := Next(w, cfg, s);
            && w'.tasks == w.tasks && w'.calls == w.calls && w'.log == w.log && w'.channels == w.channels
            && Waiting(w', Once) == Waiting(w, Once) && Waiting(w', Streaming) == Waiting(w, Streaming)
            && (w.entry.Some? ==> w'.entry.Some?)
  {}

  lemma StepWatchful(w: World, cfg: Config, s: Step)
    requires Watchful(w) && Enabled(w, cfg, s)
    ensures Watchful(Next(w, cfg, s))
  {
    match s
    case Load(kind, id, ks, order) =>
      var core := CoreOf(w, cfg);
      LoadWatchful(w, cfg, kind, id, ks, order, Sort(core.cache, ks, core.disabled || w.allDisabled));
    case Fire(t, items) => FireWatchful(w, t, items);
    case Spawn(_, _) => TaskWatchful(w, cfg, s);
    case Complete(_, _, _) => TaskWatchful(w, cfg, s);
    case Pump(_) => TaskWatchful(w, cfg, s);
    case EndStream(_) => TaskWatchful(w, cfg, s);
    case _ => QuietStepShape(w, cfg, s);
  }
}
