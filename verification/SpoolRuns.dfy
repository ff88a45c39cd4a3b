/** What holds in every interleaving of the worker and the sidecar. */
module SpoolRuns {
  import opened Text
  import opened Spool

  ghost predicate IsRun(requests: nat -> string, s: State, events: seq<Event>)
    decreases |events|
  {
    events != [] ==> Enabled(s, events[0]) && IsRun(requests, Next(requests, s, events[0]), events[1..])
  }

  ghost function After(requests: nat -> string, s: State, events: seq<Event>): State
    requires IsRun(requests, s, events)
    decreases |events|
  {
    if events == [] then s else After(requests, Next(requests, s, events[0]), events[1..])
  }

  lemma {:induction false} RunKeeps(requests: nat -> string, s: State, events: seq<Event>)
    requires Inv(requests, s) && IsRun(requests, s, events)
    ensures Inv(requests, After(requests, s, events))
    decreases |events|
  {
    hide Inv, Next, Enabled;
    if events != [] {
      StepKeeps(requests, s, events[0]);
      RunKeeps(requests, Next(requests, s, events[0]), events[1..]);
    }
  }

  lemma Reached(requests: nat -> string, s: State, events: seq<Event>, j: nat)
    requires Initial(s) && IsRun(requests, s, events)
    ensures var r := After(requests, s, events); Inv(requests, r) && JobOk(requests, r, j) && SidecarOk(requests, r)
  {
    hide JobOk, SidecarOk, IsRun, After, Initial;
    InitialInv(requests, s);
    RunKeeps(requests, s, events);
    var r := After(requests, s, events);
    assert Inv(requests, r);
  }

  /** A published request is always complete and is that of its job; so the sidecar never reads part of one, and reads
      none only for a job that the worker is done with. */
  lemma NeverPartial(requests: nat -> string, s: State, events: seq<Event>, j: nat)
    requires Initial(s) && IsRun(requests, s, events)
    ensures var r := After(requests, s, events);
            && (Request(j) in r.files ==> r.files[Request(j)] == Asked(requests(j)))
            && (Enabled(r, Pick) ==>
                  var k := r.sidecar.queue[0];
                  var answer := Next(requests, r, Pick).sidecar.step.answer;
                  answer == Some(requests(k)) || (answer == None && IsOver(PhaseOf(r, k))))
  {
    hide IsRun, After, Initial;
    var r := After(requests, s, events);
    Reached(requests, s, events, j);
    if Enabled(r, Pick) {
      Reached(requests, s, events, r.sidecar.queue[0]);
    }
  }

  /** Any result that the worker takes or returns was produced for its own request, even where a result of the same
      name lay in the directory before. */
  lemma OwnResult(requests: nat -> string, s: State, events: seq<Event>, j: nat)
    requires Initial(s) && IsRun(requests, s, events)
    ensures var p := PhaseOf(After(requests, s, events), j);
            p.Read? || p.Emptied? || p.Dropping? || p.Finished? ==> p.result == Answered(Some(requests(j)))
  {
    hide IsRun, After, Initial;
    Reached(requests, s, events, j);
  }

  // ---- The trigger ----

  /** A step that ends the work on a job leaves no request of it for the trigger, however that work went. */
  lemma ServedJobGone(requests: nat -> string, s: State, events: seq<Event>, e: Event, j: nat)
    requires Initial(s) && IsRun(requests, s, events) && Enabled(After(requests, s, events), e)
    requires var r := After(requests, s, events); j !in r.served && j in Next(requests, r, e).served
    ensures var r := After(requests, s, events);
            && Request(j) !in Next(requests, r, e).files
            && r.sidecar.Busy? && j == r.sidecar.queue[0]
            && (e == ClearRequest || e == LookAgain || e == MoveAside)
  {
    hide IsRun, After, Initial, JobOk, SidecarOk;
    var r := After(requests, s, events);
    Reached(requests, s, events, j);
    StepKeeps(requests, r, e);
    assert JobOk(requests, Next(requests, r, e), j);
    ServedOf(requests, Next(requests, r, e), j);
  }

  lemma ServedOf(requests: nat -> string, s: State, j: nat)
    requires JobOk(requests, s, j) && j in s.served
    ensures Request(j) !in s.files
  {
  }

  lemma {:induction false} ServedStays(requests: nat -> string, s: State, events: seq<Event>, j: nat)
    requires Inv(requests, s) && IsRun(requests, s, events) && j in s.served
    ensures j in After(requests, s, events).served && Request(j) !in After(requests, s, events).files
    decreases |events|
  {
    hide Inv, Next, Enabled, JobOk;
    if events == [] {
      assert JobOk(requests, s, j) by { JobOf(requests, s, j); }
      ServedOf(requests, s, j);
    } else {
      StepKeeps(requests, s, events[0]);
      ServedStep(requests, s, events[0], j);
      ServedStays(requests, Next(requests, s, events[0]), events[1..], j);
    }
  }

  lemma JobOf(requests: nat -> string, s: State, j: nat)
    requires Inv(requests, s)
    ensures JobOk(requests, s, j)
  {
  }

  lemma ServedStep(requests: nat -> string, s: State, e: Event, j: nat)
    requires Enabled(s, e) && j in s.served
    ensures j in Next(requests, s, e).served
  {
  }

  lemma {:induction false} RunConcat(requests: nat -> string, s: State, a: seq<Event>, b: seq<Event>)
    requires IsRun(requests, s, a) && IsRun(requests, After(requests, s, a), b)
    ensures IsRun(requests, s, a + b) && After(requests, s, a + b) == After(requests, After(requests, s, a), b)
    decreases |a|
  {
    hide Next, Enabled;
    if a == [] {
      assert a + b == b;
    } else {
      assert (a + b)[1..] == a[1..] + b;
      RunConcat(requests, Next(requests, s, a[0]), a[1..], b);
    }
  }

  /** A job that the sidecar is done with never triggers it again, and is never taken up again. */
  lemma NeverTriggersAgain(requests: nat -> string, s: State, events: seq<Event>, more: seq<Event>, j: nat)
    requires Initial(s) && IsRun(requests, s, events) && j in After(requests, s, events).served
    requires IsRun(requests, After(requests, s, events), more)
    ensures var r := After(requests, After(requests, s, events), more);
            && Request(j) !in r.files
            && (forall queue :: Enabled(r, Wake(queue)) ==> j !in queue)
            && (r.sidecar.Busy? ==> j !in r.sidecar.queue)
  {
    hide IsRun, After, Initial, JobOk;
    Reached(requests, s, events, j);
    ServedStays(requests, After(requests, s, events), more, j);
    var r := After(requests, After(requests, s, events), more);
    RunKeeps(requests, After(requests, s, events), more);
    assert SidecarOk(requests, r);
  }

  /** How often the sidecar takes up a request, how often it is started, and how many requests are published. */
  function Picks(events: seq<Event>): nat {
    if events == [] then 0 else (if events[0].Pick? then 1 else 0) + Picks(events[1..])
  }

  function Triggers(events: seq<Event>): nat {
    if events == [] then 0 else (if events[0].Trigger? then 1 else 0) + Triggers(events[1..])
  }

  function Publications(events: seq<Event>): nat {
    if events == [] then 0 else (if events[0].Publish? && events[0].ok then 1 else 0) + Publications(events[1..])
  }

  /** The jobs taken up so far. */
  function TakenUp(s: State): nat { |s.served| + if s.sidecar.Busy? && s.sidecar.step != Picked then 1 else 0 }

  /** The published jobs whose requests are gone and that the sidecar has not in hand. */
  function Gone(s: State, jobs: set<nat>): set<nat> {
    set j | j in jobs && Request(j) !in s.files && !(s.sidecar.Busy? && j in s.sidecar.queue)
  }

  /** The starts that these jobs account for: each start has a job of its own, the one that it saw or one that it
      finished, and one start may be under way. */
  function StartedFor(s: State, jobs: set<nat>): nat {
    match s.sidecar
    case Asleep => |Gone(s, jobs)|
    case Triggered(seen) => |Gone(s, jobs) - {seen}| + 1
    case Busy(_, _) => |Gone(s, jobs)| + 1
  }

  /** `jobs` have been published, and they are all that the sidecar has seen or can see. */
  ghost predicate Covered(s: State, jobs: set<nat>) {
    && s.served <= jobs
    && (forall j :: j in jobs ==> !IsUnpublished(PhaseOf(s, j)))
    && (forall j :: Request(j) in s.files ==> j in jobs)
    && (s.sidecar.Triggered? ==> s.sidecar.seen in jobs)
    && (s.sidecar.Busy? ==> forall j :: j in s.sidecar.queue ==> j in jobs)
  }

  function Published(jobs: set<nat>, e: Event): set<nat> {
    if e.Publish? && e.ok then jobs + {e.job} else jobs
  }

  /** What a step does with the sidecar: nothing, a start, a look, a step within a job, or the end of a job. */
  lemma SidecarMoves(requests: nat -> string, s: State, e: Event)
    requires Enabled(s, e)
    ensures var r, busy := Next(requests, s, e), s.sidecar.Busy? && s.sidecar.queue != [];
            || (IsWorker(e) && r.sidecar == s.sidecar && r.served == s.served)
            || (e.Trigger? && s.sidecar == Asleep && r == s.(sidecar := Triggered(e.job)))
            || (e.Wake? && s.sidecar.Triggered?
                && r == s.(sidecar := if e.queue == [] then Asleep else Busy(e.queue, Picked)))
            || (busy && !e.Trigger? && r.sidecar.Busy? && r.sidecar.queue == s.sidecar.queue && r.served == s.served
                && r.sidecar.step != Picked && (e.Pick? <==> s.sidecar.step == Picked))
            || (busy && !e.Trigger? && !e.Pick? && s.sidecar.step != Picked && Request(s.sidecar.queue[0]) !in r.files
                && (r.sidecar == Asleep || r.sidecar == Busy(s.sidecar.queue[1..], Picked))
                && r.served == s.served + {s.sidecar.queue[0]})
  {
    hide IsQueue;
  }

  /** The request of a job that was published once never comes back. */
  lemma NoneBack(requests: nat -> string, s: State, e: Event, j: nat)
    requires Enabled(s, e) && !IsUnpublished(PhaseOf(s, j)) && Request(j) !in s.files
    ensures Request(j) !in Next(requests, s, e).files
  {
    hide IsQueue;
  }

  lemma FirstUnserved(requests: nat -> string, s: State)
    requires SidecarOk(requests, s) && s.sidecar.Busy?
    ensures s.sidecar.queue != [] && s.sidecar.queue[0] !in s.served && s.sidecar.queue[0] !in s.sidecar.queue[1..]
  {
    assert s.sidecar.queue[0] in s.sidecar.queue;
  }

  lemma PickStep(requests: nat -> string, s: State, e: Event)
    requires SidecarOk(requests, s) && Enabled(s, e)
    ensures TakenUp(Next(requests, s, e)) == TakenUp(s) + (if e.Pick? then 1 else 0)
  {
    SidecarMoves(requests, s, e);
    if s.sidecar.Busy? {
      FirstUnserved(requests, s);
    }
    hide SidecarOk, Enabled, Next;
  }

  lemma {:induction false} SubsetSize(a: set<nat>, b: set<nat>)
    requires a <= b
    ensures |a| <= |b|
  {
    if x :| x in a {
      SubsetSize(a - {x}, b - {x});
    }
  }

  /** What the sidecar takes in hand is published. */
  lemma QueueShrinks(requests: nat -> string, s: State, e: Event, j: nat)
    requires SidecarOk(requests, s) && Enabled(s, e)
    ensures var r := Next(requests, s, e);
            r.sidecar.Busy? && j in r.sidecar.queue ==>
              (s.sidecar.Busy? && j in s.sidecar.queue) || Request(j) in s.files
  {
    SidecarMoves(requests, s, e);
    if e.Wake? {
      QueueIs(s, e);
    }
    hide Next, Enabled, SidecarOk;
  }

  lemma GoneStays(requests: nat -> string, s: State, e: Event, jobs: set<nat>)
    requires SidecarOk(requests, s) && Enabled(s, e) && Covered(s, jobs)
    ensures Gone(s, jobs) <= Gone(Next(requests, s, e), Published(jobs, e))
  {
    hide Next, Enabled, SidecarOk, IsUnpublished;
    forall j | j in Gone(s, jobs) ensures j in Gone(Next(requests, s, e), Published(jobs, e)) {
      NoneBack(requests, s, e, j);
      QueueShrinks(requests, s, e, j);
    }
  }

  lemma StartTriggered(s: State, jobs: set<nat>, j: nat)
    requires s.sidecar == Asleep && Request(j) in s.files
    ensures StartedFor(s.(sidecar := Triggered(j)), jobs) == StartedFor(s, jobs) + 1
  {
    var r := s.(sidecar := Triggered(j));
    assert Gone(r, jobs) == Gone(s, jobs) && j !in Gone(s, jobs);
    assert Gone(r, jobs) - {j} == Gone(s, jobs);
  }

  lemma StartLooked(s: State, jobs: set<nat>, queue: seq<nat>)
    requires s.sidecar.Triggered? && s.sidecar.seen in jobs && forall j :: j in queue <==> Request(j) in s.files
    ensures StartedFor(s.(sidecar := if queue == [] then Asleep else Busy(queue, Picked)), jobs) >= StartedFor(s, jobs)
  {
    var seen, r := s.sidecar.seen, s.(sidecar := if queue == [] then Asleep else Busy(queue, Picked));
    var gone := Gone(s, jobs);
    assert Gone(r, jobs) == gone;
    SubsetSize(gone - {seen}, gone);
    if queue == [] {
      assert seen in gone && |gone - {seen}| == |gone| - 1;
    }
  }

  lemma StartGoesOn(s: State, jobs: set<nat>, r: State, more: set<nat>)
    requires r.sidecar == s.sidecar || (s.sidecar.Busy? && r.sidecar.Busy?)
    requires Gone(s, jobs) <= Gone(r, more)
    ensures StartedFor(r, more) >= StartedFor(s, jobs)
  {
    SubsetSize(Gone(s, jobs), Gone(r, more));
    if s.sidecar.Triggered? {
      SubsetSize(Gone(s, jobs) - {s.sidecar.seen}, Gone(r, more) - {s.sidecar.seen});
    }
  }

  lemma StartEnds(s: State, jobs: set<nat>, r: State, more: set<nat>, j: nat)
    requires s.sidecar.Busy? && j in s.sidecar.queue && !r.sidecar.Triggered?
    requires Gone(s, jobs) <= Gone(r, more) && j in Gone(r, more)
    ensures StartedFor(r, more) >= StartedFor(s, jobs)
  {
    assert j !in Gone(s, jobs);
    SubsetSize(Gone(s, jobs) + {j}, Gone(r, more));
    assert |Gone(s, jobs) + {j}| == |Gone(s, jobs)| + 1;
  }

  lemma StartStep(requests: nat -> string, s: State, e: Event, jobs: set<nat>)
    requires SidecarOk(requests, s) && Enabled(s, e) && Covered(s, jobs)
    ensures StartedFor(Next(requests, s, e), Published(jobs, e)) >= StartedFor(s, jobs) + (if e.Trigger? then 1 else 0)
  {
    hide StartedFor, SidecarOk;
    var r, more := Next(requests, s, e), Published(jobs, e);
    GoneStays(requests, s, e, jobs);
    SidecarMoves(requests, s, e);
    if s.sidecar.Busy? {
      FirstUnserved(requests, s);
    }
    if e.Trigger? {
      StartTriggered(s, jobs, e.job);
    } else if e.Wake? {
      QueueIs(s, e);
      StartLooked(s, jobs, e.queue);
    } else if r.served == s.served {
      hide Next, Gone, Covered;
      StartGoesOn(s, jobs, r, more);
    } else {
      hide Next;
      StartEnds(s, jobs, r, more, s.sidecar.queue[0]);
    }
  }

  lemma CoveredStep(requests: nat -> string, s: State, e: Event, jobs: set<nat>)
    requires Covered(s, jobs) && Enabled(s, e)
    ensures Covered(Next(requests, s, e), Published(jobs, e))
  {
    hide IsQueue;
    if e.Wake? {
      QueueIs(s, e);
    }
  }

  lemma QueueIs(s: State, e: Event)
    requires Enabled(s, e) && e.Wake?
    ensures forall j :: j in e.queue <==> Request(j) in s.files
  {
  }

  lemma {:induction false} CountRun(requests: nat -> string, s: State, events: seq<Event>, jobs: set<nat>)
    returns (all: set<nat>)
    requires Inv(requests, s) && IsRun(requests, s, events) && Covered(s, jobs)
    ensures var r := After(requests, s, events);
            && TakenUp(r) == TakenUp(s) + Picks(events) && StartedFor(r, all) >= StartedFor(s, jobs) + Triggers(events)
            && Covered(r, all) && |all| <= |jobs| + Publications(events)
    decreases |events|
  {
    assert SidecarOk(requests, s);
    hide Inv, Next, Enabled, SidecarOk, Covered, TakenUp, StartedFor;
    all := jobs;
    if events != [] {
      var e := events[0];
      StepKeeps(requests, s, e);
      PickStep(requests, s, e);
      StartStep(requests, s, e, jobs);
      CoveredStep(requests, s, e, jobs);
      all := CountRun(requests, Next(requests, s, e), events[1..], Published(jobs, e));
    }
  }

  lemma CoveredBound(requests: nat -> string, s: State, jobs: set<nat>)
    requires SidecarOk(requests, s) && Covered(s, jobs)
    ensures TakenUp(s) <= |jobs| && StartedFor(s, jobs) <= |jobs|
  {
    var gone := Gone(s, jobs);
    SubsetSize(s.served, jobs);
    SubsetSize(gone, jobs);
    match s.sidecar {
      case Asleep =>
      case Triggered(seen) =>
        SubsetSize(gone - {seen}, jobs - {seen});
        assert |jobs - {seen}| == |jobs| - 1;
      case Busy(queue, _) =>
        FirstUnserved(requests, s);
        var j := queue[0];
        assert j in queue;
        SubsetSize(s.served + {j}, jobs);
        assert |s.served + {j}| == |s.served| + 1;
        SubsetSize(gone + {j}, jobs);
        assert |gone + {j}| == |gone| + 1;
    }
  }

  /** In every run the sidecar is started, and takes up a request, at most as often as requests were published: nothing
      keeps the trigger and the sidecar going without new jobs, even where a start finds its request gone. */
  lemma TriggerEnds(requests: nat -> string, s: State, events: seq<Event>)
    requires Initial(s) && IsRun(requests, s, events)
    ensures Picks(events) <= Publications(events) && Triggers(events) <= Publications(events)
  {
    InitialInv(requests, s);
    var all := CountRun(requests, s, events, {});
    var r := After(requests, s, events);
    RunKeeps(requests, s, events);
    assert SidecarOk(requests, r);
    CoveredBound(requests, r, all);
  }

  // ---- A success that is reported as a failure ----

  const JOB: nat := 1

  /** The sidecar succeeds, the worker reads its result; the worker sees the request just before the sidecar removes
      it. */
  function RacingRun(): seq<Event> {
    [Clear(JOB), OpenTmp(JOB)] + ([WriteTmp(JOB, true), Publish(JOB, true)] + ([Trigger(JOB), Wake([JOB])]
    + ([Pick, OpenResult(true)] + ([WriteResult(true), RenameResult(true)] + ([ChangeMode, ReadResult(JOB)]
    + ([RemoveResult(JOB), LookForRequest(JOB)] + [ClearRequest, RemoveRequest(JOB)]))))))
  }

  function Spooled(files: Files, phase: Phase, sidecar: Sidecar, served: set<nat>): State {
    State(files, map[JOB := phase], sidecar, served)
  }

  lemma TwoSteps(requests: nat -> string, s: State, d: Event, e: Event, m: State, r: State)
    requires Enabled(s, d) && Next(requests, s, d) == m && Enabled(m, e) && Next(requests, m, e) == r
    ensures IsRun(requests, s, [d, e]) && After(requests, s, [d, e]) == r
  {
    hide Enabled, Next;
    assert [d, e][1..] == [e] && [e][1..] == [];
    assert IsRun(requests, r, []) && IsRun(requests, m, [e]);
    assert After(requests, m, [e]) == After(requests, r, []);
  }

  function Asking(requests: nat -> string): Files { map[Request(JOB) := Asked(requests(JOB))] }

  function Answering(requests: nat -> string): Files { Asking(requests)[Result(JOB) := Answered(Some(requests(JOB)))] }

  const EMPTY := State(map[], map[], Asleep, {})

  lemma RacingStart(requests: nat -> string)
    ensures var m := Spooled(map[RequestTmp(JOB) := Partial], Writing, Asleep, {});
            && IsRun(requests, EMPTY, [Clear(JOB), OpenTmp(JOB)])
            && After(requests, EMPTY, [Clear(JOB), OpenTmp(JOB)]) == m
            && IsRun(requests, m, [WriteTmp(JOB, true), Publish(JOB, true)])
            && After(requests, m, [WriteTmp(JOB, true), Publish(JOB, true)])
               == Spooled(Asking(requests), Waiting, Asleep, {})
  {
    hide IsRun, After;
    var s1 := Spooled(map[], Cleared, Asleep, {});
    var s2 := Spooled(map[RequestTmp(JOB) := Partial], Writing, Asleep, {});
    var s3 := Spooled(map[RequestTmp(JOB) := Asked(requests(JOB))], Written, Asleep, {});
    assert EMPTY.files - {Result(JOB)} == map[];
    assert s2.files[RequestTmp(JOB) := Asked(requests(JOB))] == s3.files;
    assert (s3.files - {RequestTmp(JOB)})[Request(JOB) := Asked(requests(JOB))] == Asking(requests);
    TwoSteps(requests, EMPTY, Clear(JOB), OpenTmp(JOB), s1, s2);
    TwoSteps(requests, s2, WriteTmp(JOB, true), Publish(JOB, true), s3, Spooled(Asking(requests), Waiting, Asleep, {}));
  }

  lemma RacingWake(requests: nat -> string)
    ensures var s := Spooled(Asking(requests), Waiting, Asleep, {});
            && IsRun(requests, s, [Trigger(JOB), Wake([JOB])])
            && After(requests, s, [Trigger(JOB), Wake([JOB])]) ==
               Spooled(Asking(requests), Waiting, Busy([JOB], Picked), {})
  {
    hide IsRun, After;
    var files := Asking(requests);
    TwoSteps(requests, Spooled(files, Waiting, Asleep, {}), Trigger(JOB), Wake([JOB]),
             Spooled(files, Waiting, Triggered(JOB), {}), Spooled(files, Waiting, Busy([JOB], Picked), {}));
  }

  lemma RacingPick(requests: nat -> string)
    ensures var answer := Some(requests(JOB));
            var s := Spooled(Asking(requests), Waiting, Busy([JOB], Picked), {});
            && IsRun(requests, s, [Pick, OpenResult(true)])
            && After(requests, s, [Pick, OpenResult(true)]) ==
               Spooled(Asking(requests)[ResultTmp(JOB) := Partial], Waiting, Busy([JOB], Opened(answer)), {})
  {
    hide IsRun, After;
    var answer := Some(requests(JOB));
    var files := Asking(requests);
    TwoSteps(requests, Spooled(files, Waiting, Busy([JOB], Picked), {}), Pick, OpenResult(true),
             Spooled(files, Waiting, Busy([JOB], Ready(answer)), {}),
             Spooled(files[ResultTmp(JOB) := Partial], Waiting, Busy([JOB], Opened(answer)), {}));
  }

  lemma RacingWrite(requests: nat -> string)
    ensures var answer := Some(requests(JOB));
            var s := Spooled(Asking(requests)[ResultTmp(JOB) := Partial], Waiting, Busy([JOB], Opened(answer)), {});
            && IsRun(requests, s, [WriteResult(true), RenameResult(true)])
            && After(requests, s, [WriteResult(true), RenameResult(true)]) ==
               Spooled(Answering(requests), Waiting, Busy([JOB], Renamed), {})
  {
    hide IsRun, After;
    var answer := Some(requests(JOB));
    var a, b := Asking(requests)[ResultTmp(JOB) := Partial], Asking(requests)[ResultTmp(JOB) := Answered(answer)];
    assert a[ResultTmp(JOB) := Answered(answer)] == b;
    assert (b - {ResultTmp(JOB)})[Result(JOB) := Answered(answer)] == Answering(requests);
    TwoSteps(requests, Spooled(a, Waiting, Busy([JOB], Opened(answer)), {}), WriteResult(true), RenameResult(true),
             Spooled(b, Waiting, Busy([JOB], Complete(answer)), {}),
             Spooled(Answering(requests), Waiting, Busy([JOB], Renamed), {}));
  }

  lemma RacingRead(requests: nat -> string)
    ensures var own := Answered(Some(requests(JOB)));
            var s := Spooled(Answering(requests), Waiting, Busy([JOB], Renamed), {});
            && IsRun(requests, s, [ChangeMode, ReadResult(JOB)])
            && After(requests, s, [ChangeMode, ReadResult(JOB)]) ==
               Spooled(Answering(requests), Read(own), Busy([JOB], Clearing), {})
  {
    hide IsRun, After;
    var own := Answered(Some(requests(JOB)));
    var files := Answering(requests);
    TwoSteps(requests, Spooled(files, Waiting, Busy([JOB], Renamed), {}), ChangeMode, ReadResult(JOB),
             Spooled(files, Waiting, Busy([JOB], Clearing), {}), Spooled(files, Read(own), Busy([JOB], Clearing), {}));
  }

  lemma RacingLook(requests: nat -> string)
    ensures var own := Answered(Some(requests(JOB)));
            var s := Spooled(Answering(requests), Read(own), Busy([JOB], Clearing), {});
            && IsRun(requests, s, [RemoveResult(JOB), LookForRequest(JOB)])
            && After(requests, s, [RemoveResult(JOB), LookForRequest(JOB)]) ==
               Spooled(Asking(requests), Dropping(own), Busy([JOB], Clearing), {})
  {
    hide IsRun, After;
    var own := Answered(Some(requests(JOB)));
    var busy := Busy([JOB], Clearing);
    assert Answering(requests) - {Result(JOB)} == Asking(requests);
    TwoSteps(requests, Spooled(Answering(requests), Read(own), busy, {}), RemoveResult(JOB), LookForRequest(JOB),
             Spooled(Asking(requests), Emptied(own), busy, {}), Spooled(Asking(requests), Dropping(own), busy, {}));
  }

  lemma RacingBreak(requests: nat -> string)
    ensures var own := Answered(Some(requests(JOB)));
            var s := Spooled(Asking(requests), Dropping(own), Busy([JOB], Clearing), {});
            && IsRun(requests, s, [ClearRequest, RemoveRequest(JOB)])
            && After(requests, s, [ClearRequest, RemoveRequest(JOB)]) == Spooled(map[], Broken, Asleep, {JOB})
  {
    hide IsRun, After;
    var own := Answered(Some(requests(JOB)));
    assert Asking(requests) - {Request(JOB)} == map[];
    assert [JOB][1..] == [];
    TwoSteps(requests, Spooled(Asking(requests), Dropping(own), Busy([JOB], Clearing), {}), ClearRequest,
             RemoveRequest(JOB), Spooled(map[], Dropping(own), Asleep, {JOB}), Spooled(map[], Broken, Asleep, {JOB}));
  }

  /** The worker can fail a job whose result it holds: the request that it saw is removed by the sidecar before it
      removes it itself, and the exception takes the result with it. */
  lemma SuccessLost(requests: nat -> string)
    ensures Initial(EMPTY) && IsRun(requests, EMPTY, RacingRun())
    ensures After(requests, EMPTY, RacingRun()) == Spooled(map[], Broken, Asleep, {JOB})
  {
    hide IsRun, After, Spooled, Asking, Answering;
    var a, b := [Clear(JOB), OpenTmp(JOB)], [WriteTmp(JOB, true), Publish(JOB, true)];
    var c, d := [Trigger(JOB), Wake([JOB])], [Pick, OpenResult(true)];
    var e, f := [WriteResult(true), RenameResult(true)], [ChangeMode, ReadResult(JOB)];
    var g, h := [RemoveResult(JOB), LookForRequest(JOB)], [ClearRequest, RemoveRequest(JOB)];
    RacingStart(requests);
    RacingWake(requests);
    RacingPick(requests);
    RacingWrite(requests);
    RacingRead(requests);
    RacingLook(requests);
    RacingBreak(requests);
    var answer, own := Some(requests(JOB)), Answered(Some(requests(JOB)));
    RunConcat(requests, Spooled(Answering(requests), Read(own), Busy([JOB], Clearing), {}), g, h);
    RunConcat(requests, Spooled(Answering(requests), Waiting, Busy([JOB], Renamed), {}), f, g + h);
    var half := Asking(requests)[ResultTmp(JOB) := Partial];
    RunConcat(requests, Spooled(half, Waiting, Busy([JOB], Opened(answer)), {}), e, f + (g + h));
    RunConcat(requests, Spooled(Asking(requests), Waiting, Busy([JOB], Picked), {}), d, e + (f + (g + h)));
    RunConcat(requests, Spooled(Asking(requests), Waiting, Asleep, {}), c, d + (e + (f + (g + h))));
    RunConcat(requests, Spooled(map[RequestTmp(JOB) := Partial], Writing, Asleep, {}), b,
              c + (d + (e + (f + (g + h)))));
    RunConcat(requests, EMPTY, a, b + (c + (d + (e + (f + (g + h))))));
  }

  /** When the worker sees the request the sidecar is not done with the job. */
  lemma SeenUnserved(requests: nat -> string, s: State, events: seq<Event>, e: Event, j: nat)
    requires Initial(s) && IsRun(requests, s, events) && Enabled(After(requests, s, events), e)
    requires var p := PhaseOf(After(requests, s, events), j); !p.Dropping? && !p.ExpiredDropping?
    requires var p := PhaseOf(Next(requests, After(requests, s, events), e), j); p.Dropping? || p.ExpiredDropping?
    ensures e == LookForRequest(j) && j !in Next(requests, After(requests, s, events), e).served
  {
    hide IsRun, After, Initial;
    Reached(requests, s, events, j);
  }

  /** It fails so if and only if the sidecar finished with the job between the look and the removal; else the worker
      ends as it should. */
  lemma BreaksExactly(requests: nat -> string, s: State, events: seq<Event>, j: nat)
    requires Initial(s) && IsRun(requests, s, events)
    requires var p := PhaseOf(After(requests, s, events), j); p.Dropping? || p.ExpiredDropping?
    ensures var r := After(requests, s, events);
            var p := PhaseOf(Next(requests, r, RemoveRequest(j)), j);
            && (p == Broken <==> j in r.served)
            && (j !in r.served ==> p == if PhaseOf(r, j).Dropping? then Finished(Own(requests, j)) else GaveUp)
  {
    hide IsRun, After, Initial;
    Reached(requests, s, events, j);
  }
}
