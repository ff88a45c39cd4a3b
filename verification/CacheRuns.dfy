/** What holds in every run of the distributed cache. */
module CacheRuns {
  import opened Text
  import opened Cache

  // ---- The invariant ----

  /** `v` was the right answer for `k` at some time since `from` commits had been made. */
  ghost predicate RightSince(history: seq<Key -> Value>, k: Key, v: Value, from: nat) {
    exists i :: from <= i < |history| && history[i](k) == v
  }

  ghost predicate TaskOk(s: State, task: Task)
    requires s.history != []
  {
    task.stamp <= Commits(s) && task.value == s.history[task.stamp](task.key)
  }

  ghost predicate ProcessOk(s: State, p: Process)
    requires s.history != []
  {
    && p.floor <= Commits(s)
    && (p.last.Some? ==>
          && 0 < p.last.value <= s.counter && p.last.value < |s.settled|
          && s.settled[p.last.value] <= p.floor)
    && (forall t :: t in p.polls && p.polls[t].Some? ==> 0 < p.polls[t].value <= s.counter)
    && (forall t :: t in p.tasks ==> TaskOk(s, p.tasks[t]))
    && (forall k :: k in p.l1 ==> RightSince(s.history, k, p.l1[k], p.floor))
  }

  ghost predicate Ledger(s: State)
    requires s.history != []
  {
    && |s.settled| == s.counter + 1
    && s.settled[0] == 0
    && s.settled[s.counter] == SettledNow(s.pending, Commits(s))
    && (forall c :: 0 <= c <= s.counter ==> s.settled[c] <= Commits(s))
    && (forall n :: n in s.pending ==> 0 < n <= Commits(s))
  }

  ghost predicate Inv(s: State) {
    && s.history != []
    && Ledger(s)
    && (forall k :: k in s.l2 ==> s.l2[k] == Truth(s, k))
    && (forall w :: w in s.workers ==> ProcessOk(s, s.workers[w]))
  }

  /** What a missed call stores is right since the latest commit that the polls of its worker were told of, and, where
      it is stored for all workers, right now. */
  ghost predicate InTime(s: State, e: Event)
    requires s.history != [] && Enabled(s, e)
  {
    e.Store? ==>
      var p := s.workers[e.worker];
      var task := p.tasks[e.thread];
      && RightSince(s.history, task.key, task.value, p.floor)
      && (task.toRedis ==> task.value == Truth(s, task.key))
  }

  // ---- The count of settled commits ----

  lemma {:induction false} SettledBound(pending: multiset<nat>, n: nat)
    ensures SettledNow(pending, n) <= n
    ensures forall i :: 0 < i <= SettledNow(pending, n) ==> i !in pending
    ensures (forall i :: 0 < i <= n ==> i !in pending) ==> SettledNow(pending, n) == n
  {
    if n > 0 {
      SettledBound(pending, n - 1);
    }
  }

  lemma {:induction false} SettledSame(a: multiset<nat>, b: multiset<nat>, n: nat)
    requires forall i :: 0 < i <= n ==> (i in a <==> i in b)
    ensures SettledNow(a, n) == SettledNow(b, n)
  {
    if n > 0 {
      SettledSame(a, b, n - 1);
    }
  }

  /** A commit settles nothing: its own notification is pending. */
  lemma SettledByCommit(pending: multiset<nat>, n: nat, notes: nat)
    requires notes > 0 && forall i :: i in pending ==> 0 < i <= n
    ensures SettledNow(pending[n + 1 := notes], n + 1) == SettledNow(pending, n)
  {
    var more := pending[n + 1 := notes];
    assert n + 1 in more && forall i :: i != n + 1 ==> (i in more <==> i in pending);
    SettledSame(more, pending, n);
  }

  // ---- Every step keeps the invariant ----

  lemma RightLater(s: State, after: Key -> Value, k: Key, v: Value, from: nat)
    requires RightSince(s.history, k, v, from)
    ensures RightSince(s.history + [after], k, v, from)
  {
    var i :| from <= i < |s.history| && s.history[i](k) == v;
    assert (s.history + [after])[i](k) == v;
  }

  lemma CommitKeepsProcess(s: State, r: State, p: Process, models: set<string>, after: Key -> Value)
    requires s.history != [] && ProcessOk(s, p)
    requires r.history == s.history + [after] && r.counter == s.counter && r.settled == s.settled
    ensures ProcessOk(r, p) && ProcessOk(r, p.(l1 := WithoutModels(p.l1, models)))
  {
    hide RightSince;
    forall k | k in p.l1 ensures RightSince(r.history, k, p.l1[k], p.floor) {
      RightLater(s, after, k, p.l1[k], p.floor);
    }
  }

  lemma CommitKeeps(s: State, e: Event)
    requires Inv(s) && e.Commit? && Enabled(s, e)
    ensures Inv(Next(s, e))
  {
    hide ProcessOk, SettledNow;
    var r := Next(s, e);
    SettledByCommit(s.pending, Commits(s), e.notes);
    assert r.settled == s.settled && r.counter == s.counter;
    forall w | w in r.workers ensures ProcessOk(r, r.workers[w]) {
      CommitKeepsProcess(s, r, s.workers[w], e.models, e.after);
    }
  }

  lemma BumpKeeps(s: State, e: Event)
    requires Inv(s) && e.Bump? && Enabled(s, e)
    ensures Inv(Next(s, e))
  {
    hide SettledNow, RightSince;
    var r := Next(s, e);
    SettledBound(r.pending, Commits(r));
    assert forall c :: 0 <= c <= s.counter ==> r.settled[c] == s.settled[c];
  }

  /** A step that changes one worker and perhaps Redis. */
  lemma WorkerStep(s: State, w: nat, p: Process, l2: Memory)
    requires Inv(s) && ProcessOk(s, p) && forall k :: k in l2 ==> l2[k] == Truth(s, k)
    ensures Inv(s.(workers := s.workers[w := p], l2 := l2))
  {
    hide SettledNow, RightSince, TaskOk;
    var r := s.(workers := s.workers[w := p], l2 := l2);
    forall v | v in r.workers ensures ProcessOk(r, r.workers[v]) {
      SameProcess(s, r, r.workers[v]);
    }
  }

  lemma SameProcess(s: State, r: State, p: Process)
    requires s.history != [] && ProcessOk(s, p)
    requires r.history == s.history && r.counter == s.counter && r.settled == s.settled
    ensures ProcessOk(r, p)
  {
    hide RightSince;
  }

  lemma PollReadKeeps(s: State, e: Event)
    requires Inv(s) && e.PollRead? && Enabled(s, e)
    ensures Inv(Next(s, e))
  {
    hide SettledNow, RightSince, TaskOk;
    WorkerStep(s, e.worker, Next(s, e).workers[e.worker], s.l2);
  }

  lemma PollApplyKeeps(s: State, e: Event)
    requires Inv(s) && e.PollApply? && Enabled(s, e)
    ensures Inv(Next(s, e))
  {
    hide SettledNow, RightSince, TaskOk;
    assert ProcessOk(s, s.workers[e.worker]);
    assert Ledger(s);
    WorkerStep(s, e.worker, Next(s, e).workers[e.worker], s.l2);
  }

  lemma BeginKeeps(s: State, e: Event)
    requires Inv(s) && e.Begin? && Enabled(s, e)
    ensures Inv(Next(s, e))
  {
    hide SettledNow, RightSince, Ledger;
    WorkerStep(s, e.worker, Next(s, e).workers[e.worker], s.l2);
  }

  lemma StoreKeeps(s: State, e: Event)
    requires Inv(s) && e.Store? && Enabled(s, e) && InTime(s, e)
    ensures Inv(Next(s, e))
  {
    hide SettledNow, RightSince, Ledger, TaskOk;
    var r := Next(s, e);
    WorkerStep(s, e.worker, r.workers[e.worker], r.l2);
  }

  lemma RightAt(history: seq<Key -> Value>, task: Task, from: nat)
    requires from <= task.stamp < |history| && history[task.stamp](task.key) == task.value
    ensures RightSince(history, task.key, task.value, from)
  {
  }

  lemma DropLocalKeeps(s: State, e: Event)
    requires Inv(s) && e.DropLocal? && Enabled(s, e)
    ensures Inv(Next(s, e))
  {
    hide SettledNow, RightSince, TaskOk, Ledger;
    assert ProcessOk(s, s.workers[e.worker]);
    WorkerStep(s, e.worker, Next(s, e).workers[e.worker], s.l2);
  }

  lemma StartKeeps(s: State, e: Event)
    requires Inv(s) && e.Start? && Enabled(s, e)
    ensures Inv(Next(s, e))
  {
    hide SettledNow, RightSince, TaskOk, Ledger;
    WorkerStep(s, e.worker, Next(s, e).workers[e.worker], s.l2);
  }

  lemma DropSharedKeeps(s: State, e: Event)
    requires Inv(s) && e.DropShared? && Enabled(s, e)
    ensures Inv(Next(s, e))
  {
    hide SettledNow, RightSince, TaskOk;
    var r := Next(s, e);
    forall w | w in r.workers ensures ProcessOk(r, r.workers[w]) {
      SameProcess(s, r, s.workers[w]);
    }
  }

  /** Every step, with every store in time, keeps the invariant. */
  lemma StepKeeps(s: State, e: Event)
    requires Inv(s) && Enabled(s, e) && InTime(s, e)
    ensures Inv(Next(s, e))
  {
    hide Inv, Next, Enabled, InTime;
    match e
    case Commit(_, _, _, _) => CommitKeeps(s, e);
    case Bump(_) => BumpKeeps(s, e);
    case PollRead(_, _) => PollReadKeeps(s, e);
    case PollApply(_, _) => PollApplyKeeps(s, e);
    case Begin(_, _, _, _) => BeginKeeps(s, e);
    case Store(_, _) => StoreKeeps(s, e);
    case DropLocal(_, _) => DropLocalKeeps(s, e);
    case DropShared(_) => DropSharedKeeps(s, e);
    case Start(_) => StartKeeps(s, e);
  }

  // ---- Runs ----

  function Initial(before: Key -> Value): (s: State)
    ensures s.history != []
  {
    State(map[], map[], 0, multiset{}, [before], [0])
  }

  ghost predicate IsRun(s: State, events: seq<Event>)
    requires s.history != []
    decreases |events|
  {
    events != [] ==> Enabled(s, events[0]) && IsRun(Next(s, events[0]), events[1..])
  }

  ghost function After(s: State, events: seq<Event>): (r: State)
    requires s.history != [] && IsRun(s, events)
    ensures r.history != []
    decreases |events|
  {
    if events == [] then s else After(Next(s, events[0]), events[1..])
  }

  lemma {:induction false} PrefixRun(s: State, events: seq<Event>, i: nat)
    requires s.history != [] && IsRun(s, events) && i <= |events|
    ensures IsRun(s, events[..i])
    decreases |events|
  {
    hide Next, Enabled;
    if i > 0 {
      PrefixRun(Next(s, events[0]), events[1..], i - 1);
      assert events[..i][1..] == events[1..][..i - 1];
    }
  }

  /** The state of a run before its event `i`. */
  ghost function StateAt(s: State, events: seq<Event>, i: nat): (r: State)
    requires s.history != [] && IsRun(s, events) && i <= |events|
    ensures r.history != []
  {
    PrefixRun(s, events, i);
    After(s, events[..i])
  }

  lemma {:induction false} StateStep(s: State, events: seq<Event>, i: nat)
    requires s.history != [] && IsRun(s, events) && i < |events|
    ensures Enabled(StateAt(s, events, i), events[i])
    ensures StateAt(s, events, i + 1) == Next(StateAt(s, events, i), events[i])
    decreases i
  {
    hide Next, Enabled;
    if i == 0 {
      assert events[..0] == [] && events[..1] == [events[0]] && [events[0]][1..] == [];
      var r := Next(s, events[0]);
      assert IsRun(r, []) && After(r, []) == r;
      PrefixRun(s, events, 1);
      assert After(s, [events[0]]) == After(r, []);
    } else {
      var r := Next(s, events[0]);
      StateStep(r, events[1..], i - 1);
      StateLater(s, events, i);
      StateLater(s, events, i + 1);
    }
  }

  lemma StateLater(s: State, events: seq<Event>, i: nat)
    requires s.history != [] && IsRun(s, events) && 0 < i <= |events|
    ensures StateAt(s, events, i) == StateAt(Next(s, events[0]), events[1..], i - 1)
  {
    hide Next, Enabled;
    PrefixRun(s, events, i);
    PrefixRun(Next(s, events[0]), events[1..], i - 1);
    assert events[..i][1..] == events[1..][..i - 1];
  }

  lemma StateEnds(s: State, events: seq<Event>)
    requires s.history != [] && IsRun(s, events)
    ensures StateAt(s, events, 0) == s && StateAt(s, events, |events|) == After(s, events)
  {
    assert events[..0] == [] && events[..|events|] == events;
  }

  lemma Start0(before: Key -> Value)
    ensures Inv(Initial(before))
  {
  }

  lemma HasHistory(s: State)
    requires Inv(s)
    ensures s.history != []
  {
  }

  // ---- When the caches are coherent ----

  /** Redis holds only current answers, and whatever a worker holds in memory was right at some time since the latest
      commit that its polls were told of. */
  ghost predicate Coherent(s: State)
    requires s.history != []
  {
    && (forall k :: k in s.l2 ==> s.l2[k] == Truth(s, k))
    && (forall w, k :: w in s.workers && k in s.workers[w].l1 ==>
          RightSince(s.history, k, s.workers[w].l1[k], s.workers[w].floor))
  }

  /** With nothing pending, a worker that has seen the counter holds only current answers. */
  ghost predicate Announced(s: State)
    requires s.history != []
  {
    s.pending == multiset{} ==>
      forall w, k :: w in s.workers && s.workers[w].last == Stored(s.counter) && k in s.workers[w].l1 ==>
        s.workers[w].l1[k] == Truth(s, k)
  }

  lemma InvCoherent(s: State)
    requires Inv(s)
    ensures Coherent(s) && Announced(s)
  {
    hide SettledNow, RightSince;
    if s.pending == multiset{} {
      SettledBound(s.pending, Commits(s));
      forall w, k | w in s.workers && s.workers[w].last == Stored(s.counter) && k in s.workers[w].l1
        ensures s.workers[w].l1[k] == Truth(s, k)
      {
        var p := s.workers[w];
        assert ProcessOk(s, p);
        assert p.floor == Commits(s);
        RightNow(s, k, p.l1[k], p.floor);
      }
    }
  }

  lemma RightNow(s: State, k: Key, v: Value, from: nat)
    requires s.history != [] && RightSince(s.history, k, v, from) && from == Commits(s)
    ensures v == Truth(s, k)
  {
  }

  ghost predicate EveryStoreInTime(s: State, events: seq<Event>)
    requires s.history != [] && IsRun(s, events)
  {
    forall i :: 0 <= i < |events| ==>
      Enabled(StateAt(s, events, i), events[i]) && InTime(StateAt(s, events, i), events[i])
  }

  ghost predicate CoherentThroughout(s: State, events: seq<Event>)
    requires s.history != [] && IsRun(s, events)
  {
    forall i :: 0 <= i <= |events| ==> Coherent(StateAt(s, events, i))
  }

  lemma {:induction false} InvAt(s: State, events: seq<Event>, i: nat)
    requires Inv(s) && IsRun(s, events) && EveryStoreInTime(s, events) && i <= |events|
    ensures Inv(StateAt(s, events, i))
    decreases i
  {
    HasHistory(s);
    hide Inv, Next, Enabled, InTime, IsRun, StateAt;
    StateEnds(s, events);
    if i > 0 {
      InvAt(s, events, i - 1);
      StateStep(s, events, i - 1);
      StepKeeps(StateAt(s, events, i - 1), events[i - 1]);
    }
  }

  /** A store after which the caches are coherent was in time. */
  lemma CoherentStore(s: State, e: Event)
    requires s.history != [] && Enabled(s, e) && Coherent(Next(s, e))
    ensures InTime(s, e)
  {
    hide RightSince;
    if e.Store? {
      var r := Next(s, e);
      var task := s.workers[e.worker].tasks[e.thread];
      assert task.key in r.workers[e.worker].l1;
      assert task.toRedis ==> task.key in r.l2;
    }
  }

  /** In every run the caches are coherent at all times if and only if every store is in time. */
  lemma CoherentExactly(s: State, events: seq<Event>)
    requires Inv(s) && IsRun(s, events)
    ensures s.history != [] && (EveryStoreInTime(s, events) <==> CoherentThroughout(s, events))
  {
    HasHistory(s);
    hide Inv, Next, Enabled, InTime, IsRun, StateAt, Coherent, Announced;
    if EveryStoreInTime(s, events) {
      forall i | 0 <= i <= |events| ensures Coherent(StateAt(s, events, i)) {
        InvAt(s, events, i);
        InvCoherent(StateAt(s, events, i));
      }
    }
    if CoherentThroughout(s, events) {
      forall i | 0 <= i < |events|
        ensures Enabled(StateAt(s, events, i), events[i]) && InTime(StateAt(s, events, i), events[i])
      {
        StateStep(s, events, i);
        assert Coherent(StateAt(s, events, i + 1));
        CoherentStore(StateAt(s, events, i), events[i]);
      }
    }
  }

  /** And then, with nothing pending and the counter seen, whatever a worker holds is right now. */
  lemma Coherence(s: State, events: seq<Event>, i: nat)
    requires Inv(s) && IsRun(s, events) && i <= |events|
    requires s.history != [] && CoherentThroughout(s, events)
    ensures Announced(StateAt(s, events, i))
  {
    hide Inv, Next, Enabled, InTime, IsRun, StateAt, Coherent, Announced, EveryStoreInTime, CoherentThroughout;
    CoherentExactly(s, events);
    InvAt(s, events, i);
    InvCoherent(StateAt(s, events, i));
  }

  // ---- Schedules that are always coherent ----

  /** Event `i` stores what event `j` read. */
  predicate BegunAt(events: seq<Event>, j: nat, i: nat)
    requires j < i < |events|
  {
    && events[j].Begin? && events[i] == Store(events[j].worker, events[j].thread)
    && forall m :: j < m < i && events[m].Begin? ==>
         events[m].worker != events[j].worker || events[m].thread != events[j].thread
  }

  /** Between the two a commit names the model. */
  predicate NamedBetween(events: seq<Event>, j: nat, i: nat, model: string)
    requires j < i < |events|
  {
    exists m :: j < m < i && events[m].Commit? && model in events[m].models
  }

  /** Between the two there is a commit, and the worker reads the counter after it and applies what it read. */
  predicate LearnedBetween(events: seq<Event>, j: nat, i: nat, w: nat)
    requires j < i < |events|
  {
    exists r, m :: j < r < m < i && ReadLate(events, j, r, w) && events[m] == PollApply(w, events[r].thread)
  }

  /** Event `r` is a reading of the counter by the worker, after a commit that follows event `j`. */
  predicate ReadLate(events: seq<Event>, j: nat, r: nat, w: nat)
    requires j <= r < |events|
  {
    events[r].PollRead? && events[r].worker == w && exists c :: j < c < r && events[c].Commit?
  }

  /** No commit names the model of a stored key between its reading and its storing for all workers, and the worker
      applies no poll in between that could know of a commit in between. */
  predicate OnSchedule(events: seq<Event>, i: nat)
    requires i < |events|
  {
    events[i].Store? ==>
      exists j :: 0 <= j < i && BegunAt(events, j, i) && OnTime(events, j, i)
  }

  predicate OnTime(events: seq<Event>, j: nat, i: nat)
    requires j < i < |events| && events[j].Begin?
  {
    && (events[j].toRedis ==> !NamedBetween(events, j, i, events[j].key.model))
    && !LearnedBetween(events, j, i, events[j].worker)
  }

  predicate Scheduled(events: seq<Event>) {
    forall i :: 0 <= i < |events| ==> OnSchedule(events, i)
  }

  /** What is known, before event `m`, of the call that began at event `j`. */
  ghost predicate Watched(s: State, events: seq<Event>, j: nat, m: nat, task: Task, toRedis: bool)
    requires s.history != [] && j < m <= |events| && events[j].Begin?
  {
    var w, t := events[j].worker, events[j].thread;
    && task.stamp < |s.history| && s.history[task.stamp](task.key) == task.value
    && (toRedis ==> Truth(s, task.key) == task.value)
    && (Commits(s) == task.stamp || exists c :: j < c < m && events[c].Commit?)
    && (w in s.workers && t in s.workers[w].tasks ==>
          var p := s.workers[w];
          && p.tasks[t] == task && p.floor <= task.stamp
          && forall u :: u in p.polls ==> PollSeen(s.settled, events, j, m, w, task.stamp, u, p.polls[u]))
  }

  /** What a poll has read is no news for a call that began at event `j`, or it was read late. */
  ghost predicate PollSeen(settled: seq<nat>, events: seq<Event>, j: nat, m: nat, w: nat, stamp: nat, u: nat,
                           latest: Option<nat>)
    requires j < m <= |events|
  {
    latest.Some? ==>
      && latest.value < |settled|
      && (settled[latest.value] <= stamp || LatePoll(events, j, m, w, u))
  }

  lemma SeenLater(a: seq<nat>, b: seq<nat>, events: seq<Event>, j: nat, m: nat, w: nat, stamp: nat, u: nat,
                  latest: Option<nat>)
    requires j < m < |events| && PollSeen(a, events, j, m, w, stamp, u, latest) && a <= b
    ensures PollSeen(b, events, j, m + 1, w, stamp, u, latest)
  {
    hide LatePoll;
    if LatePoll(events, j, m, w, u) {
      LatePollLater(events, j, m, w, u);
    }
  }

  lemma SomeLater(events: seq<Event>, j: nat, m: nat)
    requires j < m < |events|
    ensures (exists c :: j < c < m && events[c].Commit?) ==> exists c :: j < c < m + 1 && events[c].Commit?
  {
    if c :| j < c < m && events[c].Commit? {
      assert j < c < m + 1;
    }
  }

  ghost predicate LatePoll(events: seq<Event>, j: nat, m: nat, w: nat, u: nat)
    requires j < m <= |events|
  {
    exists r :: j < r < m && ReadLate(events, j, r, w) && events[r].thread == u
  }

  lemma LatePollLater(events: seq<Event>, j: nat, m: nat, w: nat, u: nat)
    requires j < m < |events| && LatePoll(events, j, m, w, u)
    ensures LatePoll(events, j, m + 1, w, u)
  {
    var r :| j < r < m && ReadLate(events, j, r, w) && events[r].thread == u;
    assert j < r < m + 1;
  }

  /** The call as it begins. */
  lemma WatchBegins(s: State, events: seq<Event>, j: nat) returns (task: Task)
    requires Inv(s) && j < |events| && events[j].Begin? && Enabled(s, events[j])
    ensures task.key == events[j].key && (task.toRedis ==> events[j].toRedis)
    ensures Watched(Next(s, events[j]), events, j, j + 1, task, events[j].toRedis)
  {
    hide SettledNow, RightSince;
    var e := events[j];
    var p := s.workers[e.worker];
    assert ProcessOk(s, p);
    var r := Next(s, e);
    task := r.workers[e.worker].tasks[e.thread];
    forall u | u in p.polls && p.polls[u].Some?
      ensures p.polls[u].value < |r.settled| && r.settled[p.polls[u].value] <= Commits(r)
    {
    }
  }

  lemma WatchCommit(s: State, events: seq<Event>, j: nat, m: nat, task: Task, toRedis: bool)
    requires Inv(s) && j < m < |events| && events[j].Begin? && Watched(s, events, j, m, task, toRedis)
    requires events[m].Commit? && Enabled(s, events[m]) && (toRedis ==> task.key.model !in events[m].models)
    ensures Watched(Next(s, events[m]), events, j, m + 1, task, toRedis)
  {
    hide PollSeen, Inv;
    var w := events[j].worker;
    var r := Next(s, events[m]);
    assert exists c :: j < c < m + 1 && events[c].Commit?;
    if w in s.workers {
      assert r.settled == s.settled;
      forall u | u in s.workers[w].polls && PollSeen(s.settled, events, j, m, w, task.stamp, u, s.workers[w].polls[u])
        ensures PollSeen(r.settled, events, j, m + 1, w, task.stamp, u, s.workers[w].polls[u])
      {
        SeenLater(s.settled, r.settled, events, j, m, w, task.stamp, u, s.workers[w].polls[u]);
      }
    }
  }

  /** A step that leaves the history and the ledger alone, and gives the worker no other floor and no new poll that
      could be news. */
  lemma WatchQuiet(s: State, r: State, events: seq<Event>, j: nat, m: nat, task: Task, toRedis: bool)
    requires s.history != [] && j < m < |events| && events[j].Begin? && Watched(s, events, j, m, task, toRedis)
    requires r.history == s.history && s.settled <= r.settled
    requires var w, t := events[j].worker, events[j].thread;
             w in r.workers && t in r.workers[w].tasks ==>
               && w in s.workers && t in s.workers[w].tasks && r.workers[w].tasks[t] == s.workers[w].tasks[t]
               && r.workers[w].floor <= task.stamp
               && forall u :: u in r.workers[w].polls ==>
                    || (u in s.workers[w].polls && r.workers[w].polls[u] == s.workers[w].polls[u])
                    || PollSeen(r.settled, events, j, m + 1, w, task.stamp, u, r.workers[w].polls[u])
    ensures Watched(r, events, j, m + 1, task, toRedis)
  {
    hide PollSeen;
    SomeLater(events, j, m);
    var w, t := events[j].worker, events[j].thread;
    if w in r.workers && t in r.workers[w].tasks {
      forall u | u in r.workers[w].polls
        ensures PollSeen(r.settled, events, j, m + 1, w, task.stamp, u, r.workers[w].polls[u])
      {
        if u in s.workers[w].polls && r.workers[w].polls[u] == s.workers[w].polls[u] {
          SeenLater(s.settled, r.settled, events, j, m, w, task.stamp, u, s.workers[w].polls[u]);
        }
      }
    }
  }

  lemma WatchRead(s: State, events: seq<Event>, j: nat, m: nat, task: Task, toRedis: bool)
    requires Inv(s) && j < m < |events| && events[j].Begin? && Watched(s, events, j, m, task, toRedis)
    requires events[m].PollRead? && Enabled(s, events[m])
    ensures Watched(Next(s, events[m]), events, j, m + 1, task, toRedis)
  {
    assert s.history != [] && Ledger(s);
    hide Inv, PollSeen, Ledger;
    var w := events[j].worker;
    if events[m].worker == w {
      SomeLater(events, j, m);
      ReadSeen(s, events, j, m, w, task.stamp);
    }
    WatchQuiet(s, Next(s, events[m]), events, j, m, task, toRedis);
  }

  lemma ReadSeen(s: State, events: seq<Event>, j: nat, m: nat, w: nat, stamp: nat)
    requires s.history != [] && Ledger(s) && j < m < |events| && events[m].PollRead? && events[m].worker == w
    requires Commits(s) == stamp || exists c :: j < c < m && events[c].Commit?
    ensures PollSeen(s.settled, events, j, m + 1, w, stamp, events[m].thread, Stored(s.counter))
  {
    hide SettledNow, LatePoll;
    if c :| j < c < m && events[c].Commit? {
      assert ReadLate(events, j, m, w);
      LateNow(events, j, m, w);
    }
  }

  lemma LateNow(events: seq<Event>, j: nat, m: nat, w: nat)
    requires j < m < |events| && ReadLate(events, j, m, w)
    ensures LatePoll(events, j, m + 1, w, events[m].thread)
  {
  }

  lemma LearnedIf(events: seq<Event>, j: nat, m: nat, i: nat, w: nat, u: nat)
    requires j < m < i < |events| && events[m] == PollApply(w, u)
    ensures LatePoll(events, j, m, w, u) ==> LearnedBetween(events, j, i, w)
  {
    if r :| j < r < m && ReadLate(events, j, r, w) && events[r].thread == u {
      assert events[m] == PollApply(w, events[r].thread);
    }
  }

  lemma WatchApply(s: State, events: seq<Event>, j: nat, m: nat, i: nat, task: Task, toRedis: bool)
    requires Inv(s) && j < m < i < |events| && events[j].Begin? && Watched(s, events, j, m, task, toRedis)
    requires events[m].PollApply? && Enabled(s, events[m]) && !LearnedBetween(events, j, i, events[j].worker)
    ensures Watched(Next(s, events[m]), events, j, m + 1, task, toRedis)
  {
    hide SettledNow, RightSince, Inv;
    var w, t := events[j].worker, events[j].thread;
    var u := events[m].thread;
    if events[m].worker == w {
      LearnedIf(events, j, m, i, w, u);
    }
    hide LatePoll;
    WatchQuiet(s, Next(s, events[m]), events, j, m, task, toRedis);
  }

  lemma WatchOther(s: State, events: seq<Event>, j: nat, m: nat, i: nat, task: Task, toRedis: bool)
    requires Inv(s) && j < m < i < |events| && BegunAt(events, j, i) && Watched(s, events, j, m, task, toRedis)
    requires Enabled(s, events[m]) && !events[m].Commit? && !events[m].PollRead? && !events[m].PollApply?
    ensures Watched(Next(s, events[m]), events, j, m + 1, task, toRedis)
  {
    hide SettledNow, RightSince, LatePoll, Inv;
    WatchQuiet(s, Next(s, events[m]), events, j, m, task, toRedis);
  }

  lemma WatchStep(s: State, events: seq<Event>, j: nat, m: nat, i: nat, task: Task, toRedis: bool)
    requires Inv(s) && j < m < i < |events| && BegunAt(events, j, i) && Watched(s, events, j, m, task, toRedis)
    requires Enabled(s, events[m]) && OnTime(events, j, i)
    requires task.key == events[j].key && (toRedis ==> events[j].toRedis)
    ensures Watched(Next(s, events[m]), events, j, m + 1, task, toRedis)
  {
    hide Inv, Enabled, Next, Watched, LearnedBetween, BegunAt;
    assert events[j].Begin? by { Begins(events, j, i); }
    if events[m].Commit? {
      WatchCommit(s, events, j, m, task, toRedis);
    } else if events[m].PollRead? {
      WatchRead(s, events, j, m, task, toRedis);
    } else if events[m].PollApply? {
      WatchApply(s, events, j, m, i, task, toRedis);
    } else {
      WatchOther(s, events, j, m, i, task, toRedis);
    }
  }

  lemma Begins(events: seq<Event>, j: nat, i: nat)
    requires j < i < |events| && BegunAt(events, j, i)
    ensures events[j].Begin?
  {
  }

  /** A call that is watched until it is stored is in time. */
  lemma WatchEnds(s: State, events: seq<Event>, j: nat, i: nat, task: Task)
    requires s.history != [] && j < i < |events| && BegunAt(events, j, i) && Enabled(s, events[i])
    requires Watched(s, events, j, i, task, task.toRedis)
    ensures InTime(s, events[i])
  {
    hide RightSince, LatePoll;
    RightAt(s.history, task, s.workers[events[j].worker].floor);
  }

  lemma {:induction false} WatchedUntil(s: State, events: seq<Event>, j: nat, m: nat, i: nat) returns (task: Task)
    requires Inv(s) && IsRun(s, events) && Scheduled(events)
    requires s.history != [] && j < m <= i < |events| && BegunAt(events, j, i) && OnTime(events, j, i)
    ensures Watched(StateAt(s, events, m), events, j, m, task, task.toRedis)
    ensures task.key == events[j].key && (task.toRedis ==> events[j].toRedis)
    decreases m, 0
  {
    hide Inv, Next, Enabled, InTime, IsRun, StateAt, Watched, OnTime, Scheduled, BegunAt;
    StateStep(s, events, m - 1);
    ScheduledInv(s, events, m - 1);
    var before := StateAt(s, events, m - 1);
    Begins(events, j, i);
    if m == j + 1 {
      task := WatchBegins(before, events, j);
      WatchWeaker(Next(before, events[j]), events, j, j + 1, task, events[j].toRedis);
    } else {
      task := WatchedUntil(s, events, j, m - 1, i);
      WatchStep(before, events, j, m - 1, i, task, task.toRedis);
    }
  }

  lemma WatchWeaker(s: State, events: seq<Event>, j: nat, m: nat, task: Task, toRedis: bool)
    requires s.history != [] && j < m <= |events| && events[j].Begin? && Watched(s, events, j, m, task, toRedis)
    requires task.toRedis ==> toRedis
    ensures Watched(s, events, j, m, task, task.toRedis)
  {
    hide LatePoll;
  }

  lemma {:induction false} ScheduledInv(s: State, events: seq<Event>, i: nat)
    requires Inv(s) && IsRun(s, events) && Scheduled(events) && i <= |events|
    ensures s.history != [] && Inv(StateAt(s, events, i))
    decreases i, 1
  {
    HasHistory(s);
    hide Inv, Next, Enabled, InTime, IsRun, StateAt, OnSchedule;
    StateEnds(s, events);
    if i > 0 {
      ScheduledInv(s, events, i - 1);
      StateStep(s, events, i - 1);
      ScheduledInTime(s, events, i - 1);
      StepKeeps(StateAt(s, events, i - 1), events[i - 1]);
    }
  }

  lemma {:induction false} ScheduledInTime(s: State, events: seq<Event>, i: nat)
    requires Inv(s) && IsRun(s, events) && Scheduled(events) && i < |events|
    ensures s.history != [] && Enabled(StateAt(s, events, i), events[i]) && InTime(StateAt(s, events, i), events[i])
    decreases i, 2
  {
    HasHistory(s);
    hide Inv, Next, Enabled, IsRun, StateAt, Watched, OnTime, BegunAt;
    StateStep(s, events, i);
    if events[i].Store? {
      assert OnSchedule(events, i);
      var j :| 0 <= j < i && BegunAt(events, j, i) && OnTime(events, j, i);
      var task := WatchedUntil(s, events, j, i, i);
      WatchEnds(StateAt(s, events, i), events, j, i, task);
    }
  }

  /** On such a schedule the caches are coherent at all times, whatever the commits change and the calls compute. */
  lemma ScheduledCoherent(before: Key -> Value, events: seq<Event>)
    requires IsRun(Initial(before), events) && Scheduled(events)
    ensures CoherentThroughout(Initial(before), events)
    ensures forall i :: 0 <= i <= |events| ==> Announced(StateAt(Initial(before), events, i))
  {
    Start0(before);
    hide Inv, Next, Enabled, InTime, IsRun, StateAt, Coherent, Announced, Scheduled;
    var s := Initial(before);
    forall i | 0 <= i <= |events| ensures Coherent(StateAt(s, events, i)) && Announced(StateAt(s, events, i)) {
      ScheduledInv(s, events, i);
      InvCoherent(StateAt(s, events, i));
    }
  }

  /** Every store directly follows the reading of its call. */
  predicate CallsAtomic(events: seq<Event>) {
    forall i :: 0 <= i < |events| && events[i].Store? ==>
      i > 0 && events[i - 1].Begin? && events[i] == Store(events[i - 1].worker, events[i - 1].thread)
  }

  lemma AtomicIsScheduled(events: seq<Event>)
    requires CallsAtomic(events)
    ensures Scheduled(events)
  {
    forall i | 0 <= i < |events| ensures OnSchedule(events, i) {
      if events[i].Store? {
        assert BegunAt(events, i - 1, i) && OnTime(events, i - 1, i);
      }
    }
  }

  /** Where each call is one step, the caches are coherent in every run: Redis holds only current answers, memory only
      answers that were right since the latest commit the polls were told of, and with nothing pending and the counter
      seen only current ones. */
  lemma AtomicCoherent(before: Key -> Value, events: seq<Event>)
    requires IsRun(Initial(before), events) && CallsAtomic(events)
    ensures CoherentThroughout(Initial(before), events)
    ensures forall i :: 0 <= i <= |events| ==> Announced(StateAt(Initial(before), events, i))
  {
    AtomicIsScheduled(events);
    ScheduledCoherent(before, events);
  }

  /** A wrong entry in the memory of a worker means that a notification is pending or that the worker has not seen the
      counter. */
  lemma StaleIsAnnounced(before: Key -> Value, events: seq<Event>, i: nat, w: nat, k: Key)
    requires IsRun(Initial(before), events) && CallsAtomic(events) && i <= |events|
    requires var s := StateAt(Initial(before), events, i);
             w in s.workers && k in s.workers[w].l1 && s.workers[w].l1[k] != Truth(s, k)
    ensures var s := StateAt(Initial(before), events, i);
            s.pending != multiset{} || Stored(s.counter) != s.workers[w].last
  {
    hide IsRun, StateAt, CoherentThroughout, CallsAtomic;
    AtomicCoherent(before, events);
    assert Announced(StateAt(Initial(before), events, i));
  }

  /** What `Worker.Call` returns to a call in the state `s`. */
  function Answer(s: State, w: nat, k: Key, signed: bool): Value
    requires s.history != [] && w in s.workers
  {
    if k in s.workers[w].l1 then s.workers[w].l1[k]
    else if signed && k in s.l2 then s.l2[k]
    else Truth(s, k)
  }

  /** Wherever the caches are coherent throughout, every call on a worker that has seen the counter returns the current
      answer once nothing is pending. */
  lemma CoherentAnswers(s: State, events: seq<Event>, i: nat, w: nat, k: Key, signed: bool)
    requires Inv(s) && IsRun(s, events) && i <= |events|
    requires s.history != [] && CoherentThroughout(s, events)
    requires var r := StateAt(s, events, i);
             r.pending == multiset{} && w in r.workers && r.workers[w].last == Stored(r.counter)
    ensures var r := StateAt(s, events, i); Answer(r, w, k, signed) == Truth(r, k)
  {
    hide Inv, IsRun, StateAt, RightSince;
    Coherence(s, events, i);
    assert Coherent(StateAt(s, events, i)) && Announced(StateAt(s, events, i));
  }

  /** The documented guarantee, in every run in which each call is one step. */
  lemma AtomicAnswers(before: Key -> Value, events: seq<Event>, i: nat, w: nat, k: Key, signed: bool)
    requires IsRun(Initial(before), events) && CallsAtomic(events) && i <= |events|
    requires var r := StateAt(Initial(before), events, i);
             r.pending == multiset{} && w in r.workers && r.workers[w].last == Stored(r.counter)
    ensures var r := StateAt(Initial(before), events, i); Answer(r, w, k, signed) == Truth(r, k)
  {
    Start0(before);
    hide Inv, IsRun, StateAt, CoherentThroughout, CallsAtomic, Answer;
    AtomicCoherent(before, events);
    CoherentAnswers(Initial(before), events, i, w, k, signed);
  }

  /** What a worker was told is never taken back, and a poll that is applied tells it of everything settled when it
      read. */
  lemma FloorGrows(s: State, e: Event, w: nat)
    requires Inv(s) && Enabled(s, e) && w in s.workers && e != Event.Start(w)
    ensures var r := Next(s, e);
            && w in r.workers && r.workers[w].floor >= s.workers[w].floor
            && (e.PollApply? && e.worker == w && s.workers[w].polls[e.thread].Some? ==>
                  r.workers[w].floor >= s.settled[s.workers[w].polls[e.thread].value])
  {
    hide SettledNow, RightSince;
    if e.PollApply? {
      assert ProcessOk(s, s.workers[e.worker]);
    }
  }

  /** A call whose two halves follow each other is always in time, and does to the memories what `Worker.Call` does. */
  lemma CallTogether(s: State, w: nat, t: nat, k: Key, toRedis: bool)
    requires Inv(s) && Enabled(s, Begin(w, t, k, toRedis))
    ensures var m := Next(s, Begin(w, t, k, toRedis));
            var v := if k in s.l2 then s.l2[k] else Truth(s, k);
            && Enabled(m, Store(w, t)) && InTime(m, Store(w, t)) && v == Truth(s, k)
            && (var r := Next(m, Store(w, t));
                && r.workers[w].l1 == s.workers[w].l1[k := v]
                && r.l2 == (if toRedis && k !in s.l2 then s.l2[k := v] else s.l2))
  {
    hide SettledNow, RightSince;
    assert ProcessOk(s, s.workers[w]);
    var m := Next(s, Begin(w, t, k, toRedis));
    RightAt(m.history, m.workers[w].tasks[t], m.workers[w].floor);
  }

  // ---- A store that comes too late ----

  const LATE_KEY := Key("res.users", "login")

  function OldAnswer(k: Key): Value { "old" }

  function NewAnswer(k: Key): Value { if k.model == "res.users" then "new" else "old" }

  function LateRun(): seq<Event> {
    [Start(0), Begin(0, 0, LATE_KEY, true), Commit(0, {"res.users"}, NewAnswer, 1), Bump(1), PollRead(0, 1),
     PollApply(0, 1), Store(0, 0)]
  }

  lemma RunStep(s: State, events: seq<Event>)
    requires s.history != [] && events != [] && Enabled(s, events[0]) && IsRun(Next(s, events[0]), events[1..])
    ensures IsRun(s, events) && After(s, events) == After(Next(s, events[0]), events[1..])
  {
  }

  /** The states of `LateRun` after each step, spelled out. */
  function LateProcess(polls: map<nat, Option<nat>>, tasks: map<nat, Task>, last: Option<nat>, floor: nat): Process {
    Process(map[], last, polls, tasks, floor)
  }

  function LateState(p: Process, counter: nat, pending: multiset<nat>, committed: bool): State {
    State(map[0 := p], map[], counter, pending, if committed then [OldAnswer, NewAnswer] else [OldAnswer],
          if counter == 0 then [0] else [0, 1])
  }

  const LATE_TASK := map[0 := Task(LATE_KEY, "old", 0, true)]

  lemma LateMiddle()
    ensures var e := LateRun();
            var s2 := LateState(LateProcess(map[], LATE_TASK, None, 0), 0, multiset{}, false);
            var s4 := LateState(LateProcess(map[], LATE_TASK, None, 0), 1, multiset{}, true);
            && Enabled(s2, e[2]) && Enabled(Next(s2, e[2]), e[3]) && Next(Next(s2, e[2]), e[3]) == s4
  {
    var e := LateRun();
    var s2 := LateState(LateProcess(map[], LATE_TASK, None, 0), 0, multiset{}, false);
    var s3 := LateState(LateProcess(map[], LATE_TASK, None, 0), 0, multiset{1}, true);
    assert WithoutModels(map[], {"res.users"}) == map[];
    assert Next(s2, e[2]) == s3;
    assert multiset{1} - multiset{1} == multiset{};
    assert SettledNow(multiset{}, 1) == 1;
  }

  lemma LateStart()
    ensures var e := LateRun();
            var s0 := Initial(OldAnswer);
            var s2 := LateState(LateProcess(map[], LATE_TASK, None, 0), 0, multiset{}, false);
            && Enabled(s0, e[0]) && Enabled(Next(s0, e[0]), e[1]) && Next(Next(s0, e[0]), e[1]) == s2
  {
    var e := LateRun();
    var s0 := Initial(OldAnswer);
    assert Next(s0, e[0]) == LateState(LateProcess(map[], map[], None, 0), 0, multiset{}, false);
  }

  lemma LateEnd()
    ensures var e := LateRun();
            var s4 := LateState(LateProcess(map[], LATE_TASK, None, 0), 1, multiset{}, true);
            && Enabled(s4, e[4]) && Enabled(Next(s4, e[4]), e[5])
            && (var s6 := Next(Next(s4, e[4]), e[5]);
                && Enabled(s6, e[6]) && s6 == LateState(LateProcess(map[], LATE_TASK, Some(1), 1), 1, multiset{}, true)
                && Next(s6, e[6]) == s6.(workers := map[0 := Process(map[LATE_KEY := "old"], Some(1), map[], map[], 1)],
                                         l2 := map[LATE_KEY := "old"]))
  {
    var e := LateRun();
    var s4 := LateState(LateProcess(map[], LATE_TASK, None, 0), 1, multiset{}, true);
    var s5 := LateState(LateProcess(map[1 := Some(1)], LATE_TASK, None, 0), 1, multiset{}, true);
    assert Next(s4, e[4]) == s5;
    assert map[1 := Some(1)] - {1} == map[];
    assert LATE_TASK - {0} == map[];
  }

  lemma LateIsRun()
    ensures var e := LateRun();
            && IsRun(Initial(OldAnswer), e)
            && After(Initial(OldAnswer), e) ==
               State(map[0 := Process(map[LATE_KEY := "old"], Some(1), map[], map[], 1)], map[LATE_KEY := "old"], 1,
                     multiset{}, [OldAnswer, NewAnswer], [0, 1])
  {
    hide Next, Enabled;
    LateStart();
    LateMiddle();
    LateEnd();
    var e := LateRun();
    var s0 := Initial(OldAnswer);
    var s2 := Next(Next(s0, e[0]), e[1]);
    var s4 := Next(Next(s2, e[2]), e[3]);
    var s6 := Next(Next(s4, e[4]), e[5]);
    assert e[6..] == [e[6]] && [e[6]][1..] == [];
    assert e[5..][1..] == e[6..] && e[4..][1..] == e[5..] && e[3..][1..] == e[4..] && e[2..][1..] == e[3..];
    assert e[1..][1..] == e[2..] && e[0..] == e;
    RunStep(s6, e[6..]);
    RunStep(Next(s4, e[4]), e[5..]);
    RunStep(s4, e[4..]);
    RunStep(Next(s2, e[2]), e[3..]);
    RunStep(s2, e[2..]);
    RunStep(Next(s0, e[0]), e[1..]);
    RunStep(s0, e);
  }

  /** Without that condition the guarantee fails: an answer computed before a commit and stored after the commit was
      announced and polled stays wrong in memory and in Redis, with nothing pending and the counter seen. */
  lemma LateStoreStays()
    ensures var e := LateRun();
            && IsRun(Initial(OldAnswer), e)
            && (var s := After(Initial(OldAnswer), e);
                && s.history != [] && s.pending == multiset{} && 0 in s.workers
                && s.workers[0].last == Stored(s.counter)
                && LATE_KEY in s.workers[0].l1 && s.workers[0].l1[LATE_KEY] != Truth(s, LATE_KEY)
                && LATE_KEY in s.l2 && s.l2[LATE_KEY] != Truth(s, LATE_KEY))
  {
    hide IsRun, After, LateRun;
    LateIsRun();
  }
}
