/** Which schedules of the distributed cache are coherent whatever the commits change. */
module CacheSchedules {
  import opened Text
  import opened Cache
  import opened CacheRuns

  // ---- Schedules ----

  /** The same step, but for what a commit makes of the answers. */
  ghost predicate SameStep(d: Event, e: Event) {
    d == e || (d.Commit? && e.Commit? && d.worker == e.worker && d.models == e.models && d.notes == e.notes)
  }

  ghost predicate SameSchedule(a: seq<Event>, b: seq<Event>) {
    |a| == |b| && forall i :: 0 <= i < |a| ==> SameStep(a[i], b[i])
  }

  /** The models that each commit of a run names, in order. */
  function NamedBy(events: seq<Event>): seq<set<string>> {
    if events == [] then []
    else
      var e := events[|events| - 1];
      NamedBy(events[..|events| - 1]) + if e.Commit? then [e.models] else []
  }

  /** None of the commits after the first `from`, up to the first `to`, names the model. */
  predicate Unnamed(named: seq<set<string>>, model: string, from: nat, end: nat) {
    forall n :: from <= n < end && n < |named| ==> model !in named[n]
  }

  /** What a missed call stores was read before no commit that names its model and that the polls of its worker were
      told of; and, where it is stored for all workers, before no commit that names its model. */
  ghost predicate Fitting(s: State, e: Event, named: seq<set<string>>)
    requires s.history != [] && Enabled(s, e)
  {
    e.Store? ==>
      var p := s.workers[e.worker];
      var task := p.tasks[e.thread];
      && Unnamed(named, task.key.model, task.stamp, p.floor)
      && (task.toRedis ==> Unnamed(named, task.key.model, task.stamp, Commits(s)))
  }

  ghost predicate EveryStoreFits(s: State, events: seq<Event>)
    requires s.history != [] && IsRun(s, events)
  {
    forall i :: 0 <= i < |events| ==> FitsAt(s, events, i)
  }

  ghost predicate FitsAt(s: State, events: seq<Event>, i: nat)
    requires s.history != [] && IsRun(s, events) && i < |events|
  {
    StateStep(s, events, i);
    Fitting(StateAt(s, events, i), events[i], NamedBy(events[..i]))
  }

  lemma NamedStep(events: seq<Event>, i: nat)
    requires i < |events|
    ensures NamedBy(events[..i + 1]) == NamedBy(events[..i]) + if events[i].Commit? then [events[i].models] else []
  {
    assert events[..i + 1][..i] == events[..i];
  }

  lemma {:induction false} NamedSame(a: seq<Event>, b: seq<Event>, i: nat)
    requires SameSchedule(a, b) && i <= |a|
    ensures NamedBy(a[..i]) == NamedBy(b[..i])
  {
    if i > 0 {
      NamedSame(a, b, i - 1);
      NamedStep(a, i - 1);
      NamedStep(b, i - 1);
    }
  }

  // ---- What does not depend on the answers ----

  predicate TaskAlike(a: Task, b: Task) { a.key == b.key && a.stamp == b.stamp && a.toRedis == b.toRedis }

  ghost predicate ProcessAlike(p: Process, q: Process) {
    && p.l1.Keys == q.l1.Keys && p.last == q.last && p.polls == q.polls && p.floor == q.floor
    && p.tasks.Keys == q.tasks.Keys && forall t :: t in p.tasks ==> TaskAlike(p.tasks[t], q.tasks[t])
  }

  /** Two states with the same keys, stamps and counters. */
  ghost predicate Alike(s: State, r: State) {
    && s.history != [] && |s.history| == |r.history|
    && s.counter == r.counter && s.pending == r.pending && s.settled == r.settled
    && s.l2.Keys == r.l2.Keys && s.workers.Keys == r.workers.Keys
    && forall w :: w in s.workers ==> ProcessAlike(s.workers[w], r.workers[w])
  }

  /** A step that changes one worker only. */
  ghost predicate OnlyWorker(s: State, a: State, w: nat) {
    w in a.workers && a == s.(workers := s.workers[w := a.workers[w]])
  }

  lemma StepOnlyWorker(s: State, e: Event)
    requires s.history != [] && Enabled(s, e)
    requires e.PollRead? || e.PollApply? || e.Begin? || e.DropLocal? || e.Start?
    ensures OnlyWorker(s, Next(s, e), e.worker)
  {
    hide SettledNow;
  }

  lemma OnlyAlike(s: State, r: State, a: State, b: State, w: nat)
    requires Alike(s, r) && OnlyWorker(s, a, w) && OnlyWorker(r, b, w) && ProcessAlike(a.workers[w], b.workers[w])
    ensures Alike(a, b)
  {
    hide ProcessAlike;
  }

  lemma WithoutKeys(m: Memory, n: Memory, models: set<string>)
    requires m.Keys == n.Keys
    ensures WithoutModels(m, models).Keys == WithoutModels(n, models).Keys
  {
    forall k ensures k in WithoutModels(m, models) <==> k in WithoutModels(n, models) {
      assert k in m <==> k in n;
    }
  }

  lemma CommitAlike(s: State, r: State, d: Event, e: Event)
    requires Alike(s, r) && d.Commit? && SameStep(d, e) && Enabled(s, d) && Enabled(r, e)
    ensures Alike(Next(s, d), Next(r, e))
  {
    hide SettledNow, WithoutModels, TaskAlike;
    WithoutKeys(s.l2, r.l2, d.models);
    WithoutKeys(s.workers[d.worker].l1, r.workers[d.worker].l1, d.models);
  }

  lemma ReadAlike(s: State, r: State, e: Event)
    requires Alike(s, r) && e.PollRead? && Enabled(s, e) && Enabled(r, e)
    ensures ProcessAlike(Next(s, e).workers[e.worker], Next(r, e).workers[e.worker])
  {
    hide TaskAlike;
    assert ProcessAlike(s.workers[e.worker], r.workers[e.worker]);
  }

  lemma ApplyAlike(s: State, r: State, e: Event)
    requires Alike(s, r) && e.PollApply? && Enabled(s, e) && Enabled(r, e)
    ensures ProcessAlike(Next(s, e).workers[e.worker], Next(r, e).workers[e.worker])
  {
    hide TaskAlike;
    assert ProcessAlike(s.workers[e.worker], r.workers[e.worker]);
  }

  lemma BeginAlike(s: State, r: State, e: Event)
    requires Alike(s, r) && e.Begin? && Enabled(s, e) && Enabled(r, e)
    ensures ProcessAlike(Next(s, e).workers[e.worker], Next(r, e).workers[e.worker])
  {
    assert ProcessAlike(s.workers[e.worker], r.workers[e.worker]);
    assert e.key in s.l2 <==> e.key in r.l2;
  }

  lemma DropAlike(s: State, r: State, e: Event)
    requires Alike(s, r) && (e.DropLocal? || e.Start?) && Enabled(s, e) && Enabled(r, e)
    ensures ProcessAlike(Next(s, e).workers[e.worker], Next(r, e).workers[e.worker])
  {
    hide TaskAlike;
    if e.DropLocal? {
      var p, q := s.workers[e.worker], r.workers[e.worker];
      assert ProcessAlike(p, q);
      assert (p.l1 - {e.key}).Keys == p.l1.Keys - {e.key} && (q.l1 - {e.key}).Keys == q.l1.Keys - {e.key};
    }
  }

  lemma LocalAlike(s: State, r: State, e: Event)
    requires Alike(s, r) && Enabled(s, e) && Enabled(r, e)
    requires e.PollRead? || e.PollApply? || e.Begin? || e.DropLocal? || e.Start?
    ensures Alike(Next(s, e), Next(r, e))
  {
    assert r.history != [];
    hide Alike, Next, Enabled, ProcessAlike, OnlyWorker;
    StepOnlyWorker(s, e);
    StepOnlyWorker(r, e);
    if e.PollRead? {
      ReadAlike(s, r, e);
    } else if e.PollApply? {
      ApplyAlike(s, r, e);
    } else if e.Begin? {
      BeginAlike(s, r, e);
    } else {
      DropAlike(s, r, e);
    }
    OnlyAlike(s, r, Next(s, e), Next(r, e), e.worker);
  }

  lemma StoredAlike(p: Process, q: Process, t: nat)
    requires ProcessAlike(p, q) && t in p.tasks
    ensures var v, w := p.tasks[t], q.tasks[t];
            ProcessAlike(p.(l1 := p.l1[v.key := v.value], tasks := p.tasks - {t}),
                         q.(l1 := q.l1[w.key := w.value], tasks := q.tasks - {t}))
  {
    var v, w := p.tasks[t], q.tasks[t];
    assert TaskAlike(v, w);
    assert p.l1[v.key := v.value].Keys == p.l1.Keys + {v.key} && q.l1[w.key := w.value].Keys == q.l1.Keys + {w.key};
    assert (p.tasks - {t}).Keys == p.tasks.Keys - {t} && (q.tasks - {t}).Keys == q.tasks.Keys - {t};
  }

  /** A store, as one for the worker and one for Redis. */
  lemma StoreAlike(s: State, r: State, e: Event)
    requires Alike(s, r) && e.Store? && Enabled(s, e) && Enabled(r, e)
    ensures Alike(Next(s, e), Next(r, e))
  {
    var p, q := s.workers[e.worker], r.workers[e.worker];
    assert ProcessAlike(p, q);
    var v, w := p.tasks[e.thread], q.tasks[e.thread];
    assert TaskAlike(v, w);
    var p', q' := p.(l1 := p.l1[v.key := v.value], tasks := p.tasks - {e.thread}),
                  q.(l1 := q.l1[w.key := w.value], tasks := q.tasks - {e.thread});
    StoredAlike(p, q, e.thread);
    var a, b := s.(workers := s.workers[e.worker := p']), r.(workers := r.workers[e.worker := q']);
    assert Next(s, e) == a.(l2 := if v.toRedis then s.l2[v.key := v.value] else s.l2);
    assert Next(r, e) == b.(l2 := if w.toRedis then r.l2[w.key := w.value] else r.l2);
    hide Next, Enabled, ProcessAlike, TaskAlike;
    assert Alike(a, b) by {
      hide Alike;
      OnlyAlike(s, r, a, b, e.worker);
    }
    RedisAlike(a, b, Next(s, e).l2, Next(r, e).l2);
  }

  lemma RedisAlike(s: State, r: State, l2: Memory, l2': Memory)
    requires Alike(s, r) && l2.Keys == l2'.Keys
    ensures Alike(s.(l2 := l2), r.(l2 := l2'))
  {
    hide ProcessAlike;
  }

  lemma SharedAlike(s: State, r: State, e: Event)
    requires Alike(s, r) && (e.DropShared? || e.Bump?) && Enabled(s, e) && Enabled(r, e)
    ensures Alike(Next(s, e), Next(r, e))
  {
    hide SettledNow, ProcessAlike;
    assert e.DropShared? ==> (s.l2 - {e.key}).Keys == (r.l2 - {e.key}).Keys;
  }

  lemma AlikeStep(s: State, r: State, d: Event, e: Event)
    requires Alike(s, r) && SameStep(d, e) && Enabled(s, d) && Enabled(r, e)
    ensures Alike(Next(s, d), Next(r, e))
  {
    hide Alike, Next, Enabled;
    if d.Commit? {
      CommitAlike(s, r, d, e);
    } else if e.Store? {
      StoreAlike(s, r, e);
    } else if e.DropShared? || e.Bump? {
      SharedAlike(s, r, e);
    } else {
      LocalAlike(s, r, e);
    }
  }

  lemma StartAlike(before: Key -> Value, other: Key -> Value)
    ensures Alike(Initial(before), Initial(other))
  {
  }

  lemma {:induction false} AlikeAt(s: State, a: seq<Event>, r: State, b: seq<Event>, i: nat)
    requires Alike(s, r) && SameSchedule(a, b) && i <= |a|
    requires s.history != [] && r.history != [] && IsRun(s, a) && IsRun(r, b)
    ensures Alike(StateAt(s, a, i), StateAt(r, b, i))
  {
    hide Alike, Next, Enabled, IsRun, StateAt;
    StateEnds(s, a);
    StateEnds(r, b);
    if i > 0 {
      AlikeAt(s, a, r, b, i - 1);
      StateStep(s, a, i - 1);
      StateStep(r, b, i - 1);
      AlikeStep(StateAt(s, a, i - 1), StateAt(r, b, i - 1), a[i - 1], b[i - 1]);
    }
  }

  lemma FittingAlike(s: State, r: State, d: Event, e: Event, named: seq<set<string>>)
    requires Alike(s, r) && SameStep(d, e) && Enabled(s, d) && Enabled(r, e) && r.history != []
    ensures Fitting(s, d, named) <==> Fitting(r, e, named)
  {
    hide Unnamed;
    if d.Store? {
      assert ProcessAlike(s.workers[d.worker], r.workers[d.worker]);
      assert TaskAlike(s.workers[d.worker].tasks[d.thread], r.workers[d.worker].tasks[d.thread]);
    }
  }

  /** Whether the stores fit depends on the schedule only. */
  lemma FitsAlike(before: Key -> Value, a: seq<Event>, other: Key -> Value, b: seq<Event>, i: nat)
    requires IsRun(Initial(before), a) && IsRun(Initial(other), b) && SameSchedule(a, b) && i < |a|
    ensures FitsAt(Initial(before), a, i) <==> FitsAt(Initial(other), b, i)
  {
    var s, r := Initial(before), Initial(other);
    StartAlike(before, other);
    hide Alike, Next, Enabled, IsRun, StateAt, Fitting, Initial;
    AlikeAt(s, a, r, b, i);
    StateStep(s, a, i);
    StateStep(r, b, i);
    NamedSame(a, b, i);
    FittingAlike(StateAt(s, a, i), StateAt(r, b, i), a[i], b[i], NamedBy(a[..i]));
  }

  // ---- Stores that fit are in time ----

  /** A commit changes only the answers of the models it names. */
  ghost predicate HistoryOf(history: seq<Key -> Value>, named: seq<set<string>>) {
    && |history| == |named| + 1
    && forall n, k: Key :: 0 <= n < |named| && k.model !in named[n] ==> history[n + 1](k) == history[n](k)
  }

  lemma HistoryStep(s: State, e: Event, named: seq<set<string>>)
    requires s.history != [] && Enabled(s, e) && HistoryOf(s.history, named)
    ensures HistoryOf(Next(s, e).history, named + if e.Commit? then [e.models] else [])
  {
  }

  lemma {:induction false} HistoryAt(before: Key -> Value, events: seq<Event>, i: nat)
    requires IsRun(Initial(before), events) && i <= |events|
    ensures HistoryOf(StateAt(Initial(before), events, i).history, NamedBy(events[..i]))
  {
    var s := Initial(before);
    hide Next, Enabled, IsRun, StateAt, HistoryOf;
    StateEnds(s, events);
    if i > 0 {
      HistoryAt(before, events, i - 1);
      StateStep(s, events, i - 1);
      NamedStep(events, i - 1);
      HistoryStep(StateAt(s, events, i - 1), events[i - 1], NamedBy(events[..i - 1]));
    } else {
      assert HistoryOf(s.history, []) by { FirstHistory(before); }
    }
  }

  lemma FirstHistory(before: Key -> Value)
    ensures HistoryOf(Initial(before).history, [])
  {
  }

  lemma {:induction false} UnnamedSame(history: seq<Key -> Value>, named: seq<set<string>>, k: Key, from: nat, end: nat)
    requires HistoryOf(history, named) && Unnamed(named, k.model, from, end) && from <= end <= |named|
    ensures history[end](k) == history[from](k)
    decreases end
  {
    if end > from {
      UnnamedSame(history, named, k, from, end - 1);
    }
  }

  lemma FittingInTime(s: State, e: Event, named: seq<set<string>>)
    requires Inv(s) && Enabled(s, e) && HistoryOf(s.history, named) && Fitting(s, e, named)
    ensures InTime(s, e)
  {
    if e.Store? {
      var p := s.workers[e.worker];
      var task := p.tasks[e.thread];
      assert ProcessOk(s, p) && TaskOk(s, task);
      hide Inv, ProcessOk, HistoryOf, Unnamed;
      if task.stamp < p.floor {
        UnnamedSame(s.history, named, task.key, task.stamp, p.floor);
        assert p.floor < |s.history| by { FloorBound(s, p); }
        assert s.history[p.floor](task.key) == task.value;
      }
      if task.toRedis {
        UnnamedSame(s.history, named, task.key, task.stamp, Commits(s));
      }
    }
  }

  lemma FloorBound(s: State, p: Process)
    requires s.history != [] && ProcessOk(s, p)
    ensures p.floor <= Commits(s)
  {
  }

  lemma {:induction false} FitsInv(before: Key -> Value, events: seq<Event>, i: nat)
    requires IsRun(Initial(before), events) && EveryStoreFits(Initial(before), events) && i <= |events|
    ensures Inv(StateAt(Initial(before), events, i))
  {
    var s := Initial(before);
    Start0(before);
    hide Inv, Next, Enabled, IsRun, StateAt, Fitting, InTime, Initial;
    StateEnds(s, events);
    if i > 0 {
      FitsInv(before, events, i - 1);
      StateStep(s, events, i - 1);
      HistoryAt(before, events, i - 1);
      assert FitsAt(s, events, i - 1);
      FittingInTime(StateAt(s, events, i - 1), events[i - 1], NamedBy(events[..i - 1]));
      StepKeeps(StateAt(s, events, i - 1), events[i - 1]);
    }
  }

  /** A run whose stores fit is coherent throughout. */
  lemma FitsCoherent(before: Key -> Value, events: seq<Event>)
    requires IsRun(Initial(before), events) && EveryStoreFits(Initial(before), events)
    ensures CoherentThroughout(Initial(before), events)
  {
    var s := Initial(before);
    hide Inv, IsRun, StateAt, Coherent, Initial, EveryStoreFits;
    forall i | 0 <= i <= |events| ensures Coherent(StateAt(s, events, i)) {
      FitsInv(before, events, i);
      InvCoherent(StateAt(s, events, i));
    }
  }

  // ---- Answers that tell all commits apart ----

  /** How many of the commits name the model. */
  function Naming(named: seq<set<string>>, model: string): nat {
    if named == [] then 0
    else Naming(named[..|named| - 1], model) + if model in named[|named| - 1] then 1 else 0
  }

  /** An answer that changes with every commit that names its model. */
  function Telling(named: seq<set<string>>): Key -> Value {
    (k: Key) => seq(Naming(named, k.model), _ => 'x')
  }

  lemma NamingMore(named: seq<set<string>>, models: set<string>, model: string)
    ensures Naming(named + [models], model) == Naming(named, model) + if model in models then 1 else 0
  {
    assert (named + [models])[..|named|] == named;
  }

  /** Two prefixes with as many names have none between them. */
  lemma {:induction false} NamingEqual(named: seq<set<string>>, model: string, from: nat, end: nat)
    requires from <= end <= |named|
    ensures Naming(named[..from], model) <= Naming(named[..end], model)
    ensures Naming(named[..from], model) == Naming(named[..end], model) ==> Unnamed(named, model, from, end)
    decreases end
  {
    if end > from {
      NamingEqual(named, model, from, end - 1);
      assert named[..end] == named[..end - 1] + [named[end - 1]];
      NamingMore(named[..end - 1], named[end - 1], model);
    }
  }

  ghost predicate IsTelling(history: seq<Key -> Value>, named: seq<set<string>>) {
    && |history| == |named| + 1
    && forall n, k :: 0 <= n <= |named| ==> history[n](k) == Telling(named[..n])(k)
  }

  /** The same step with telling answers. */
  function Retold(e: Event, named: seq<set<string>>): Event {
    if e.Commit? then e.(after := Telling(named + [e.models])) else e
  }

  function RetoldAll(events: seq<Event>): (r: seq<Event>)
    ensures |r| == |events|
  {
    seq(|events|, i requires 0 <= i < |events| => Retold(events[i], NamedBy(events[..i])))
  }

  lemma RetoldSchedule(events: seq<Event>)
    ensures SameSchedule(events, RetoldAll(events))
  {
    hide NamedBy, Telling;
  }

  lemma RetoldEnabled(s: State, r: State, e: Event, named: seq<set<string>>)
    requires Alike(s, r) && Enabled(s, e) && r.history != [] && IsTelling(r.history, named)
    ensures Enabled(r, Retold(e, named))
  {
    if e.Commit? {
      forall k: Key | k.model !in e.models ensures Telling(named + [e.models])(k) == Truth(r, k) {
        NamingMore(named, e.models, k.model);
        assert named[..|named|] == named;
      }
    } else if e.PollRead? || e.PollApply? || e.Begin? || e.Store? {
      assert ProcessAlike(s.workers[e.worker], r.workers[e.worker]);
    }
  }

  lemma TellingStep(r: State, e: Event, named: seq<set<string>>)
    requires r.history != [] && IsTelling(r.history, named) && Enabled(r, Retold(e, named))
    ensures IsTelling(Next(r, Retold(e, named)).history, named + if e.Commit? then [e.models] else [])
  {
    hide Telling;
    var more := named + if e.Commit? then [e.models] else [];
    assert forall n :: 0 <= n <= |named| ==> more[..n] == named[..n];
    assert more[..|more|] == more;
  }

  lemma {:induction false} RunMore(s: State, events: seq<Event>, e: Event)
    requires s.history != [] && IsRun(s, events) && Enabled(After(s, events), e)
    ensures IsRun(s, events + [e]) && After(s, events + [e]) == Next(After(s, events), e)
    decreases |events|
  {
    hide Next, Enabled;
    if events == [] {
      assert [] + [e] == [e] && [e][1..] == [];
      assert IsRun(Next(s, e), []);
    } else {
      assert (events + [e])[1..] == events[1..] + [e];
      RunMore(Next(s, events[0]), events[1..], e);
    }
  }

  lemma RetoldPrefix(events: seq<Event>, i: nat)
    requires i < |events|
    ensures RetoldAll(events)[..i + 1] == RetoldAll(events)[..i] + [Retold(events[i], NamedBy(events[..i]))]
  {
    hide NamedBy, Retold;
  }

  /** One step of a run, told and retold. */
  lemma RetoldStep(p: State, r: State, told: seq<Event>, e: Event, named: seq<set<string>>)
    requires r.history != [] && IsRun(r, told) && Alike(p, After(r, told)) && IsTelling(After(r, told).history, named)
    requires p.history != [] && Enabled(p, e)
    ensures var more := told + [Retold(e, named)];
            && IsRun(r, more) && Alike(Next(p, e), After(r, more))
            && IsTelling(After(r, more).history, named + if e.Commit? then [e.models] else [])
  {
    var q, d := After(r, told), Retold(e, named);
    assert SameStep(e, d);
    hide Alike, Next, Enabled, IsRun, IsTelling, Telling, After, Retold, SameStep;
    RetoldEnabled(p, q, e, named);
    AlikeStep(p, q, e, d);
    TellingStep(q, e, named);
    RunMore(r, told, d);
  }

  /** Every run is one with telling answers too. */
  lemma {:induction false} RetoldRun(before: Key -> Value, events: seq<Event>, i: nat)
    requires IsRun(Initial(before), events) && i <= |events|
    ensures var r := Initial(Telling([]));
            && IsRun(r, RetoldAll(events)[..i])
            && Alike(StateAt(Initial(before), events, i), After(r, RetoldAll(events)[..i]))
            && IsTelling(After(r, RetoldAll(events)[..i]).history, NamedBy(events[..i]))
  {
    var s, r, told := Initial(before), Initial(Telling([])), RetoldAll(events);
    assert Alike(s, r) by { StartAlike(before, Telling([])); }
    assert NamedBy([]) == [];
    hide Alike, Next, Enabled, IsRun, StateAt, Initial, IsTelling, Telling, After, NamedBy, RetoldAll, Retold;
    if i == 0 {
      assert told[..0] == [] && events[..0] == [];
      StateEnds(s, events);
      FirstTelling();
    } else {
      RetoldRun(before, events, i - 1);
      StateStep(s, events, i - 1);
      NamedStep(events, i - 1);
      RetoldPrefix(events, i - 1);
      RetoldStep(StateAt(s, events, i - 1), r, told[..i - 1], events[i - 1], NamedBy(events[..i - 1]));
    }
  }

  lemma FirstTelling()
    ensures IsRun(Initial(Telling([])), []) && After(Initial(Telling([])), []) == Initial(Telling([]))
    ensures IsTelling(Initial(Telling([])).history, [])
  {
  }

  /** With telling answers, a store in time fits. */
  lemma InTimeFitting(s: State, e: Event, named: seq<set<string>>)
    requires Inv(s) && Enabled(s, e) && IsTelling(s.history, named) && InTime(s, e)
    ensures Fitting(s, e, named)
  {
    if e.Store? {
      var p := s.workers[e.worker];
      var task := p.tasks[e.thread];
      assert ProcessOk(s, p) && TaskOk(s, task);
      hide Inv, ProcessOk, Naming, Unnamed;
      var n :| p.floor <= n < |s.history| && s.history[n](task.key) == task.value;
      if task.stamp < p.floor {
        SameTelling(s.history, named, task.key, task.stamp, n);
        UnnamedLess(named, task.key.model, task.stamp, p.floor, n);
      } else {
        UnnamedNone(named, task.key.model, task.stamp, p.floor);
      }
      if task.toRedis {
        SameTelling(s.history, named, task.key, task.stamp, Commits(s));
      }
    }
  }

  lemma UnnamedLess(named: seq<set<string>>, model: string, from: nat, end: nat, more: nat)
    requires Unnamed(named, model, from, more) && end <= more
    ensures Unnamed(named, model, from, end)
  {
  }

  lemma UnnamedNone(named: seq<set<string>>, model: string, from: nat, end: nat)
    requires end <= from
    ensures Unnamed(named, model, from, end)
  {
  }

  lemma SameTelling(history: seq<Key -> Value>, named: seq<set<string>>, k: Key, from: nat, end: nat)
    requires IsTelling(history, named) && from <= end <= |named| && history[from](k) == history[end](k)
    ensures Unnamed(named, k.model, from, end)
  {
    hide Naming, Unnamed;
    NamingEqual(named, k.model, from, end);
    assert |history[from](k)| == Naming(named[..from], k.model) && |history[end](k)| == Naming(named[..end], k.model);
  }

  /** Where the run with telling answers is coherent, every store fits. */
  lemma TellingFits(before: Key -> Value, events: seq<Event>, i: nat)
    requires IsRun(Initial(before), events) && i < |events|
    requires IsRun(Initial(Telling([])), RetoldAll(events))
    requires CoherentThroughout(Initial(Telling([])), RetoldAll(events))
    ensures FitsAt(Initial(before), events, i)
  {
    var r, told := Initial(Telling([])), RetoldAll(events);
    Start0(Telling([]));
    RetoldSchedule(events);
    hide Inv, Next, Enabled, IsRun, StateAt, Fitting, InTime, Initial, IsTelling, Telling, CoherentThroughout,
      EveryStoreInTime, RetoldAll, SameSchedule, Alike, NamedBy;
    CoherentExactly(r, told);
    InvAt(r, told, i);
    StateStep(r, told, i);
    InTimeAt(r, told, i);
    RetoldRun(before, events, i);
    assert StateAt(r, told, i) == After(r, told[..i]) by { StateIs(r, told, i); }
    NamedSame(events, told, i);
    InTimeFitting(StateAt(r, told, i), told[i], NamedBy(told[..i]));
    FitsAlike(before, events, Telling([]), told, i);
  }

  lemma StateIs(s: State, events: seq<Event>, i: nat)
    requires s.history != [] && IsRun(s, events) && i <= |events|
    ensures IsRun(s, events[..i]) && StateAt(s, events, i) == After(s, events[..i])
  {
    hide IsRun, After;
    PrefixRun(s, events, i);
  }

  lemma InTimeAt(s: State, events: seq<Event>, i: nat)
    requires s.history != [] && IsRun(s, events) && EveryStoreInTime(s, events) && i < |events|
    ensures Enabled(StateAt(s, events, i), events[i]) && InTime(StateAt(s, events, i), events[i])
  {
  }

  /** A schedule is coherent throughout, whatever the answers are and however the commits change them, if and only if
      every store in it fits. */
  lemma ScheduleExactly(before: Key -> Value, events: seq<Event>)
    requires IsRun(Initial(before), events)
    ensures EveryStoreFits(Initial(before), events) <==>
            forall other, others :: SameSchedule(events, others) && IsRun(Initial(other), others) ==>
              CoherentThroughout(Initial(other), others)
  {
    hide IsRun, Initial, CoherentThroughout, FitsAt, SameSchedule;
    if EveryStoreFits(Initial(before), events) {
      forall other, others | SameSchedule(events, others) && IsRun(Initial(other), others)
        ensures CoherentThroughout(Initial(other), others)
      {
        AllAlike(before, events, other, others);
        FitsCoherent(other, others);
      }
    }
    if forall other, others :: SameSchedule(events, others) && IsRun(Initial(other), others) ==>
                                 CoherentThroughout(Initial(other), others)
    {
      RetoldRun(before, events, |events|);
      assert RetoldAll(events)[..|events|] == RetoldAll(events);
      RetoldSchedule(events);
      forall i | 0 <= i < |events| ensures FitsAt(Initial(before), events, i) {
        TellingFits(before, events, i);
      }
    }
  }

  lemma AllAlike(before: Key -> Value, events: seq<Event>, other: Key -> Value, others: seq<Event>)
    requires IsRun(Initial(before), events) && EveryStoreFits(Initial(before), events)
    requires SameSchedule(events, others) && IsRun(Initial(other), others)
    ensures EveryStoreFits(Initial(other), others)
  {
    hide IsRun, Initial, FitsAt, SameSchedule;
    assert |events| == |others| by { SameLength(events, others); }
    forall i | 0 <= i < |others| ensures FitsAt(Initial(other), others, i) {
      FitsAlike(before, events, other, others, i);
    }
  }

  lemma SameLength(a: seq<Event>, b: seq<Event>)
    requires SameSchedule(a, b)
    ensures |a| == |b|
  {
  }
}
