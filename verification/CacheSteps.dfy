/** What the steps of the cache do with what is kept, and that they are the operations of one worker. */
module CacheSteps {
  import opened Text
  import opened Cache
  import opened CacheRuns

  // ---- Invalidation ----

  lemma WithoutExactly(m: Memory, models: set<string>)
    ensures forall k :: k in WithoutModels(m, models) <==> k in m && k.model !in models
    ensures forall k :: k in WithoutModels(m, models) ==> WithoutModels(m, models)[k] == m[k]
  {
  }

  /** A commit removes the cached results of its models, and no others, from Redis and from the memory of its own
      worker, and touches no other worker; so its worker answers for them from the new data at once, and keeps the
      rest. */
  lemma CommitInvalidates(s: State, e: Event)
    requires s.history != [] && e.Commit? && Enabled(s, e)
    ensures var r := Next(s, e);
            && (forall k :: k in r.l2 <==> k in s.l2 && k.model !in e.models)
            && (forall k :: k in r.l2 ==> r.l2[k] == s.l2[k])
            && (forall k :: k in r.workers[e.worker].l1 <==> k in s.workers[e.worker].l1 && k.model !in e.models)
            && (forall k :: k in r.workers[e.worker].l1 ==> r.workers[e.worker].l1[k] == s.workers[e.worker].l1[k])
            && (forall w :: w != e.worker ==> (w in r.workers <==> w in s.workers))
            && (forall w :: w != e.worker && w in s.workers ==> r.workers[w] == s.workers[w])
    ensures var r := Next(s, e);
            forall k: Key, signed :: k.model in e.models ==>
              Answer(r, e.worker, k, signed) == e.after(k) == Truth(r, k)
  {
    WithoutExactly(s.l2, e.models);
    WithoutExactly(s.workers[e.worker].l1, e.models);
    hide WithoutModels;
  }

  // ---- Polling ----

  /** Reading and applying the counter in one go: a counter that is there and was not seen clears the memory and is
      remembered; otherwise nothing is lost. */
  lemma PollTogether(s: State, w: nat, t: nat)
    requires s.history != [] && Enabled(s, PollRead(w, t)) && s.counter < |s.settled|
    ensures var m := Next(s, PollRead(w, t));
            && Enabled(m, PollApply(w, t))
            && (var p, r := s.workers[w], Next(m, PollApply(w, t));
                var q := r.workers[w];
                && r.l2 == s.l2 && r.counter == s.counter
                && (s.counter > 0 && p.last != Some(s.counter) ==> q.l1 == map[] && q.last == Some(s.counter))
                && (s.counter == 0 || p.last == Some(s.counter) ==> q.l1 == p.l1 && q.last == p.last))
  {
    var m := Next(s, PollRead(w, t));
    assert m.workers[w].polls[t] == Stored(s.counter);
  }

  /** What one worker does on its own is what the step does, for the poll and for the call. */
  lemma PollIsStep(l1: Memory, last: Option<nat>, latest: Option<nat>)
    ensures latest == None || latest == last ==> Polled(l1, last, latest) == (l1, last)
    ensures latest.Some? && latest != last ==> Polled(l1, last, latest) == (map[], latest)
  {
  }

  /** A call that found its answer in Redis stores nothing there, and one that may store does. */
  lemma CallStores(s: State, w: nat, t: nat, k: Key, toRedis: bool)
    requires s.history != [] && Enabled(s, Begin(w, t, k, toRedis))
    ensures var m := Next(s, Begin(w, t, k, toRedis));
            && Enabled(m, Store(w, t)) && m.l2 == s.l2 && m.workers[w].l1 == s.workers[w].l1
            && (var r := Next(m, Store(w, t));
                && k in r.workers[w].l1 && (k in s.l2 ==> r.workers[w].l1[k] == s.l2[k])
                && (k in s.l2 || !toRedis ==> r.l2 == s.l2)
                && (k !in s.l2 && toRedis ==> r.l2 == s.l2[k := r.workers[w].l1[k]])
                && r.workers[w].l1 == s.workers[w].l1[k := r.workers[w].l1[k]]
                && r.workers[w].tasks == s.workers[w].tasks)
  {
    var m := Next(s, Begin(w, t, k, toRedis));
    var p := s.workers[w];
    assert p.tasks[t := m.workers[w].tasks[t]] - {t} == p.tasks;
  }
}
