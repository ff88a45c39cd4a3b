/** The distributed cache: per-worker memory, shared Redis, commits, the daemon's counter and the polls. */
module Cache {
  import opened Text

  /** A cache key: the model named in it, and the rest. A value is what the cached function returns. */
  datatype Key = Key(model: string, rest: string)
  type Value = string
  type Memory = map<Key, Value>

  // ---- The operations on one worker ----

  function WithoutModels(m: Memory, models: set<string>): Memory {
    map k | k in m && k.model !in models :: m[k]
  }

  /** `poll_and_clear_local_cache` after `latest` was read: the memory and the counter last seen. */
  function Polled(l1: Memory, last: Option<nat>, latest: Option<nat>): (Memory, Option<nat>) {
    if latest.Some? && latest != last then (map[], latest) else (l1, last)
  }

  class Redis {
    var entries: Memory
    var counter: Option<nat>

    constructor ()
      ensures entries == map[] && counter == None
    {
      entries, counter := map[], None;
    }

    /** `INCR global_cache_invalidation_counter`. */
    method Increment()
      modifies this`counter
      ensures counter == Some(if old(counter).Some? then old(counter).value + 1 else 1)
    {
      counter := Some(if counter.Some? then counter.value + 1 else 1);
    }
  }

  class Worker {
    var l1: Memory
    var last: Option<nat>

    constructor ()
      ensures l1 == map[] && last == None
    {
      l1, last := map[], None;
    }

    /** `poll_and_clear_local_cache` from the reading on. The connection settings that it also drops are not modelled.
        */
    method Poll(latest: Option<nat>)
      modifies this
      ensures (l1, last) == Polled(old(l1), old(last), latest)
    {
      if latest.Some? && latest != last {
        l1 := map[];
        last := latest;
      }
    }

    /** The wrapper of `distributed_cache`; `signed` says whether Redis may be used at all, `packs` whether the
        result can be serialized. */
    method Call(redis: Redis, key: Key, compute: Key -> Value, signed: bool, packs: bool) returns (value: Value)
      modifies this`l1, redis`entries
      ensures value == (if key in old(l1) then old(l1)[key]
                        else if signed && key in old(redis.entries) then old(redis.entries)[key]
                        else compute(key))
      ensures l1 == old(l1)[key := value] && last == old(last)
      ensures redis.entries ==
              (if signed && packs && key !in old(l1) && key !in old(redis.entries) then old(redis.entries)[key := value]
               else old(redis.entries))
    {
      if key in l1 {
        assert l1 == l1[key := l1[key]];
        return l1[key];
      }
      if signed && key in redis.entries {
        value := redis.entries[key];
        l1 := l1[key := value];
        return;
      }
      value := compute(key);
      if signed && packs {
        redis.entries := redis.entries[key := value];
      }
      l1 := l1[key := value];
    }

    /** `invalidate_model_cache`. */
    method Invalidate(redis: Redis, model: string, localOnly: bool)
      modifies this`l1, redis`entries
      ensures l1 == WithoutModels(old(l1), {model})
      ensures redis.entries == (if localOnly then old(redis.entries) else WithoutModels(old(redis.entries), {model}))
    {
      if !localOnly {
        redis.entries := map k | k in redis.entries && k.model != model :: redis.entries[k];
      }
      l1 := map k | k in l1 && k.model != model :: l1[k];
    }
  }

  // ---- All workers together ----

  /** A call of the cached function that missed: what it will store, and how many commits had been made when its
      value was read. */
  datatype Task = Task(key: Key, value: Value, stamp: nat, toRedis: bool)

  /** One worker: its memory, the counter it saw last, the counters its polls have read but not applied, its calls on
      their way, and the highest number of commits that any poll it applied was told of. */
  datatype Process = Process(l1: Memory, last: Option<nat>, polls: map<nat, Option<nat>>,
                             tasks: map<nat, Task>, floor: nat)

  /** The whole system. `history[i]` is what the cached function returns after `i` commits. `pending` are the commits
      whose notification the daemon has not turned into an increment; `settled[c]` is the number of commits before
      which none was pending when the counter reached `c`. */
  datatype State = State(
    workers: map<nat, Process>,
    l2: Memory,
    counter: nat,
    pending: multiset<nat>,
    history: seq<Key -> Value>,
    settled: seq<nat>)

  datatype Event =
    | Commit(worker: nat, models: set<string>, after: Key -> Value, notes: nat)
    | Bump(commit: nat)
    | PollRead(worker: nat, thread: nat)
    | PollApply(worker: nat, thread: nat)
    | Begin(worker: nat, thread: nat, key: Key, toRedis: bool)
    | Store(worker: nat, thread: nat)
    | DropLocal(worker: nat, key: Key)
    | DropShared(key: Key)
    | Start(worker: nat)

  function Commits(s: State): nat
    requires s.history != []
  {
    |s.history| - 1
  }

  function Truth(s: State, k: Key): Value
    requires s.history != []
  {
    s.history[|s.history| - 1](k)
  }

  /** The counter as Redis holds it: absent until the first increment. */
  function Stored(counter: nat): Option<nat> { if counter == 0 then None else Some(counter) }

  /** Before this many commits none is pending. */
  ghost function SettledNow(pending: multiset<nat>, commits: nat): nat
    decreases commits
  {
    if commits == 0 then 0
    else
      var before := SettledNow(pending, commits - 1);
      if before == commits - 1 && commits !in pending then commits else before
  }

  ghost predicate Enabled(s: State, e: Event)
    requires s.history != []
  {
    match e
    case Commit(w, models, after, notes) =>
      // the committing code notifies, and for every model whose cached results change
      w in s.workers && notes > 0 && forall k: Key :: k.model !in models ==> after(k) == Truth(s, k)
    case Bump(n) => n in s.pending
    case PollRead(w, t) => w in s.workers && t !in s.workers[w].polls
    case PollApply(w, t) => w in s.workers && t in s.workers[w].polls
    case Begin(w, t, k, _) => w in s.workers && t !in s.workers[w].tasks && k !in s.workers[w].l1
    case Store(w, t) => w in s.workers && t in s.workers[w].tasks
    case DropLocal(w, _) => w in s.workers
    case DropShared(_) => true
    case Start(w) => true
  }

  ghost function Next(s: State, e: Event): (r: State)
    requires s.history != [] && Enabled(s, e)
    ensures r.history != []
  {
    match e
    case Commit(w, models, after, notes) =>
      // the commit, and what runs at once after it: the deletion in Redis and in the memory of this worker
      var p := s.workers[w];
      s.(workers := s.workers[w := p.(l1 := WithoutModels(p.l1, models))],
         l2 := WithoutModels(s.l2, models),
         history := s.history + [after],
         pending := s.pending[|s.history| := notes])
    case Bump(n) =>
      var pending := s.pending - multiset{n};
      s.(counter := s.counter + 1, pending := pending, settled := s.settled + [SettledNow(pending, Commits(s))])
    case PollRead(w, t) =>
      var p := s.workers[w];
      s.(workers := s.workers[w := p.(polls := p.polls[t := Stored(s.counter)])])
    case PollApply(w, t) =>
      var p := s.workers[w];
      var (l1, last) := Polled(p.l1, p.last, p.polls[t]);
      var r := p.polls[t];
      var told := if r.Some? && r.value < |s.settled| then s.settled[r.value] else 0;
      s.(workers := s.workers[w := p.(l1 := l1, last := last, polls := p.polls - {t},
                                      floor := if told > p.floor then told else p.floor)])
    case Begin(w, t, k, toRedis) =>
      var p := s.workers[w];
      var task := if k in s.l2 then Task(k, s.l2[k], Commits(s), false) else Task(k, Truth(s, k), Commits(s), toRedis);
      s.(workers := s.workers[w := p.(tasks := p.tasks[t := task])])
    case Store(w, t) =>
      var p := s.workers[w];
      var task := p.tasks[t];
      s.(workers := s.workers[w := p.(l1 := p.l1[task.key := task.value], tasks := p.tasks - {t})],
         l2 := if task.toRedis then s.l2[task.key := task.value] else s.l2)
    case DropLocal(w, k) =>
      var p := s.workers[w];
      s.(workers := s.workers[w := p.(l1 := p.l1 - {k})])
    case DropShared(k) => s.(l2 := s.l2 - {k})
    case Start(w) => s.(workers := s.workers[w := Process(map[], None, map[], map[], 0)])
  }
}
