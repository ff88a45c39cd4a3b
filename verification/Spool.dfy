/** The spool directory between the worker and the privileged sidecar: two programs that meet only in files. */
module Spool {
  import opened Text

  // ---- Files ----

  datatype Path =
    | Request(job: nat)    // request-<job>.json, what the trigger of the sidecar looks for
    | RequestTmp(job: nat)
    | Result(job: nat)
    | ResultTmp(job: nat)
    | SetAside(job: nat)   // failed-<job>.json

  /** What a file holds: part of a text; a request; or a result and the request that was read for it, None when the
      sidecar could not read one. */
  datatype Content = Partial | Asked(request: string) | Answered(readFor: Option<string>)

  type Files = map<Path, Content>

  // ---- The two programs ----

  /** Where `_run_pgbackrest_via_sidecar` is for one job. */
  datatype Phase =
    | Idle
    | Cleared                  // a stale result is removed
    | Writing
    | Written
    | Waiting                  // the request is published
    | Read(result: Content)
    | Emptied(result: Content) // the result is removed
    | Dropping(result: Content) // the request was seen and is about to be removed
    | Expired
    | ExpiredDropping
    | Finished(result: Content)
    | GaveUp
    | Broken                   // an exception leaves the function
    | Abandoned                // so does one of the broker connection, while the request is still published

  /** Where `_process_one` is for the first job of the queue. */
  datatype Step =
    | Picked
    | Ready(answer: Option<string>)
    | Opened(answer: Option<string>)
    | Complete(answer: Option<string>)
    | Renamed
    | Clearing
    | Handling
    | Moving

  /** The sidecar is started because a request was there, and then looks which requests are there. */
  datatype Sidecar = Asleep | Triggered(seen: nat) | Busy(queue: seq<nat>, step: Step)

  /** `served` are the jobs that the sidecar is done with. */
  datatype State = State(files: Files, phases: map<nat, Phase>, sidecar: Sidecar, served: set<nat>)

  function PhaseOf(s: State, j: nat): Phase {
    if j in s.phases then s.phases[j] else Idle
  }

  datatype Event =
    | Clear(job: nat) | OpenTmp(job: nat) | WriteTmp(job: nat, ok: bool) | Publish(job: nat, ok: bool)
    | ReadResult(job: nat) | RemoveResult(job: nat) | LookForRequest(job: nat) | RemoveRequest(job: nat)
    | TimeOut(job: nat) | Interrupt(job: nat)
    | Trigger(job: nat) | Wake(queue: seq<nat>) | Pick
    | OpenResult(ok: bool) | WriteResult(ok: bool) | RenameResult(ok: bool)
    | ChangeMode | ClearRequest | LookAgain | MoveAside

  ghost predicate IsQueue(files: Files, queue: seq<nat>) {
    && (forall j :: j in queue <==> Request(j) in files)
    && (forall a, b :: 0 <= a < b < |queue| ==> queue[a] != queue[b])
  }

  ghost predicate Enabled(s: State, e: Event) {
    match e
    case Clear(j) => PhaseOf(s, j) == Idle
    case OpenTmp(j) => PhaseOf(s, j) == Cleared
    case WriteTmp(j, _) => PhaseOf(s, j) == Writing
    case Publish(j, _) => PhaseOf(s, j) == Written && RequestTmp(j) in s.files
    case ReadResult(j) => PhaseOf(s, j) == Waiting && Result(j) in s.files
    case RemoveResult(j) => PhaseOf(s, j).Read?
    case LookForRequest(j) => PhaseOf(s, j).Emptied? || PhaseOf(s, j).Expired?
    case RemoveRequest(j) => PhaseOf(s, j).Dropping? || PhaseOf(s, j).ExpiredDropping?
    case TimeOut(j) => PhaseOf(s, j) == Waiting
    case Interrupt(j) => PhaseOf(s, j) == Waiting
    case Trigger(j) => s.sidecar == Asleep && Request(j) in s.files
    case Wake(queue) => s.sidecar.Triggered? && IsQueue(s.files, queue)
    case Pick => s.sidecar.Busy? && s.sidecar.queue != [] && s.sidecar.step == Picked
    case OpenResult(_) => s.sidecar.Busy? && s.sidecar.queue != [] && s.sidecar.step.Ready?
    case WriteResult(_) => s.sidecar.Busy? && s.sidecar.queue != [] && s.sidecar.step.Opened?
    case RenameResult(_) => s.sidecar.Busy? && s.sidecar.queue != [] && s.sidecar.step.Complete?
    case ChangeMode => s.sidecar.Busy? && s.sidecar.queue != [] && s.sidecar.step == Renamed
    case ClearRequest => s.sidecar.Busy? && s.sidecar.queue != [] && s.sidecar.step == Clearing
    case LookAgain => s.sidecar.Busy? && s.sidecar.queue != [] && s.sidecar.step == Handling
    case MoveAside => s.sidecar.Busy? && s.sidecar.queue != [] && s.sidecar.step == Moving
  }

  function Move(s: State, j: nat, p: Phase, files: Files): State {
    s.(files := files, phases := s.phases[j := p])
  }

  function At(s: State, step: Step): State
    requires s.sidecar.Busy?
  {
    s.(sidecar := s.sidecar.(step := step))
  }

  /** The end of `_process_one` for the first job of the queue. */
  function NextJob(s: State): State
    requires s.sidecar.Busy? && s.sidecar.queue != []
  {
    var rest := s.sidecar.queue[1..];
    s.(sidecar := if rest == [] then Asleep else Busy(rest, Picked), served := s.served + {s.sidecar.queue[0]})
  }

  ghost function WorkerNext(requests: nat -> string, s: State, e: Event): State
    requires Enabled(s, e)
  {
    var j := if e.Clear? || e.OpenTmp? || e.WriteTmp? || e.Publish? || e.ReadResult? || e.RemoveResult?
                || e.LookForRequest? || e.RemoveRequest? || e.TimeOut? || e.Interrupt? then e.job else 0;
    match e
    case Clear(_) => Move(s, j, Cleared, s.files - {Result(j)})
    case OpenTmp(_) => Move(s, j, Writing, s.files[RequestTmp(j) := Partial])
    case WriteTmp(_, ok) =>
      if ok then Move(s, j, Written, s.files[RequestTmp(j) := Asked(requests(j))])
      else Move(s, j, Broken, s.files - {RequestTmp(j)})
    case Publish(_, ok) =>
      if ok then Move(s, j, Waiting, (s.files - {RequestTmp(j)})[Request(j) := s.files[RequestTmp(j)]])
      else Move(s, j, Broken, s.files)
    case ReadResult(_) => Move(s, j, Read(s.files[Result(j)]), s.files)
    case RemoveResult(_) => Move(s, j, Emptied(PhaseOf(s, j).result), s.files - {Result(j)})
    case LookForRequest(_) =>
      if Request(j) in s.files then
        Move(s, j, if PhaseOf(s, j).Expired? then ExpiredDropping else Dropping(PhaseOf(s, j).result), s.files)
      else Move(s, j, if PhaseOf(s, j).Expired? then GaveUp else Finished(PhaseOf(s, j).result), s.files)
    case RemoveRequest(_) =>
      if Request(j) !in s.files then Move(s, j, Broken, s.files)
      else Move(s, j, if PhaseOf(s, j).ExpiredDropping? then GaveUp else Finished(PhaseOf(s, j).result),
                s.files - {Request(j)})
    case TimeOut(_) => Move(s, j, Expired, s.files)
    case Interrupt(_) => Move(s, j, Abandoned, s.files)
    case _ => s
  }

  ghost function SidecarNext(s: State, e: Event): State
    requires Enabled(s, e)
  {
    var j := if s.sidecar.Busy? && s.sidecar.queue != [] then s.sidecar.queue[0] else 0;
    match e
    case Trigger(seen) => s.(sidecar := Triggered(seen))
    case Wake(queue) => s.(sidecar := if queue == [] then Asleep else Busy(queue, Picked))
    case Pick =>
      At(s, Ready(if Request(j) in s.files && s.files[Request(j)].Asked?
                  then Some(s.files[Request(j)].request) else None))
    case OpenResult(ok) =>
      if ok then At(s.(files := s.files[ResultTmp(j) := Partial]), Opened(s.sidecar.step.answer)) else At(s, Handling)
    case WriteResult(ok) =>
      if ok then At(s.(files := s.files[ResultTmp(j) := Answered(s.sidecar.step.answer)]),
                    Complete(s.sidecar.step.answer))
      else At(s, Handling)
    case RenameResult(ok) =>
      if ok then At(s.(files := (s.files - {ResultTmp(j)})[Result(j) := Answered(s.sidecar.step.answer)]), Renamed)
      else At(s, Handling)
    case ChangeMode => At(s, if Result(j) in s.files then Clearing else Handling)
    case ClearRequest =>
      if Request(j) in s.files then NextJob(s.(files := s.files - {Request(j)})) else At(s, Handling)
    case LookAgain => if Request(j) in s.files then At(s, Moving) else NextJob(s)
    case MoveAside =>
      if Request(j) in s.files then NextJob(s.(files := (s.files - {Request(j)})[SetAside(j) := s.files[Request(j)]]))
      else s.(sidecar := Asleep, served := s.served + {j}) // the exception ends the whole run
    case _ => s
  }

  predicate IsWorker(e: Event) {
    e.Clear? || e.OpenTmp? || e.WriteTmp? || e.Publish? || e.ReadResult? || e.RemoveResult? || e.LookForRequest?
    || e.RemoveRequest? || e.TimeOut? || e.Interrupt?
  }

  ghost function Next(requests: nat -> string, s: State, e: Event): State
    requires Enabled(s, e)
  {
    if IsWorker(e) then WorkerNext(requests, s, e) else SidecarNext(s, e)
  }

  // ---- The invariant ----

  predicate IsUnpublished(p: Phase) { p == Idle || p == Cleared || p == Writing || p == Written }

  predicate IsOver(p: Phase) { p.Finished? || p == GaveUp || p == Broken }

  function Own(requests: nat -> string, j: nat): Content { Answered(Some(requests(j))) }

  predicate JobOk(requests: nat -> string, s: State, j: nat) {
    var p := PhaseOf(s, j);
    && (Request(j) in s.files ==> s.files[Request(j)] == Asked(requests(j)) && !IsUnpublished(p) && !IsOver(p))
    && (IsUnpublished(p) && p != Idle ==> Result(j) !in s.files)
    && (p == Written ==> RequestTmp(j) in s.files && s.files[RequestTmp(j)] == Asked(requests(j)))
    && (!IsUnpublished(p) && Result(j) in s.files ==>
          s.files[Result(j)] == Own(requests, j) || (s.files[Result(j)] == Answered(None) && IsOver(p)))
    && (p.Read? || p.Emptied? || p.Dropping? || p.Finished? ==> p.result == Own(requests, j))
    && (p.Dropping? || p.ExpiredDropping? ==> Request(j) in s.files || j in s.served)
    && (j in s.served ==> Request(j) !in s.files && !IsUnpublished(p))
  }

  predicate AnswerOk(requests: nat -> string, s: State, j: nat, answer: Option<string>) {
    answer == Some(requests(j)) || (answer == None && IsOver(PhaseOf(s, j)))
  }

  predicate SidecarOk(requests: nat -> string, s: State) {
    s.sidecar.Busy? ==>
      var queue := s.sidecar.queue;
      var step := s.sidecar.step;
      && queue != []
      && (forall j :: j in queue ==> !IsUnpublished(PhaseOf(s, j)) && j !in s.served)
      && (forall a, b :: 0 <= a < b < |queue| ==> queue[a] != queue[b])
      && (forall k :: 0 <= k < |queue| && (k > 0 || step == Picked) ==>
            Request(queue[k]) in s.files || IsOver(PhaseOf(s, queue[k])))
      && (step.Ready? || step.Opened? || step.Complete? ==> AnswerOk(requests, s, queue[0], step.answer))
  }

  ghost predicate Inv(requests: nat -> string, s: State) {
    (forall j :: JobOk(requests, s, j)) && SidecarOk(requests, s)
  }

  /** A spool before any job: there may be left-over results, but no request. */
  ghost predicate Initial(s: State) {
    s.phases == map[] && s.sidecar == Asleep && s.served == {} && forall j :: Request(j) !in s.files
  }

  lemma InitialInv(requests: nat -> string, s: State)
    requires Initial(s)
    ensures Inv(requests, s)
  {
  }

  // ---- Every step of the worker keeps it ----

  /** A step for one job leaves the files of all others alone. */
  lemma OtherJob(requests: nat -> string, s: State, r: State, j: nat, i: nat)
    requires JobOk(requests, s, i) && i != j
    requires PhaseOf(r, i) == PhaseOf(s, i) && (i in r.served <==> i in s.served)
    requires Request(i) in r.files <==> Request(i) in s.files
    requires Request(i) in s.files ==> r.files[Request(i)] == s.files[Request(i)]
    requires RequestTmp(i) in s.files ==> RequestTmp(i) in r.files && r.files[RequestTmp(i)] == s.files[RequestTmp(i)]
    requires Result(i) in r.files <==> Result(i) in s.files
    requires Result(i) in s.files ==> r.files[Result(i)] == s.files[Result(i)]
    ensures JobOk(requests, r, i)
  {
  }

  lemma WorkerJob(requests: nat -> string, s: State, e: Event)
    requires Inv(requests, s) && Enabled(s, e) && IsWorker(e)
    ensures JobOk(requests, Next(requests, s, e), e.job)
  {
    assert JobOk(requests, s, e.job);
    hide Inv, JobOk, Enabled, Next;
    if e.Clear? || e.OpenTmp? || e.WriteTmp? || e.Publish? {
      PublishingJob(requests, s, e);
    } else {
      WaitingJob(requests, s, e);
    }
  }

  lemma PublishingJob(requests: nat -> string, s: State, e: Event)
    requires Enabled(s, e) && (e.Clear? || e.OpenTmp? || e.WriteTmp? || e.Publish?) && JobOk(requests, s, e.job)
    ensures JobOk(requests, Next(requests, s, e), e.job)
  {
  }

  lemma WaitingJob(requests: nat -> string, s: State, e: Event)
    requires Enabled(s, e) && IsWorker(e) && !(e.Clear? || e.OpenTmp? || e.WriteTmp? || e.Publish?)
    requires JobOk(requests, s, e.job)
    ensures JobOk(requests, Next(requests, s, e), e.job)
  {
    hide JobOk, Enabled, Next;
    if e.LookForRequest? || e.RemoveRequest? {
      LookingJob(requests, s, e);
    } else {
      ReadingJob(requests, s, e);
    }
  }

  lemma LookingJob(requests: nat -> string, s: State, e: Event)
    requires Enabled(s, e) && (e.LookForRequest? || e.RemoveRequest?) && JobOk(requests, s, e.job)
    ensures JobOk(requests, Next(requests, s, e), e.job)
  {
  }

  lemma ReadingJob(requests: nat -> string, s: State, e: Event)
    requires Enabled(s, e) && (e.ReadResult? || e.RemoveResult? || e.TimeOut? || e.Interrupt?)
    requires JobOk(requests, s, e.job)
    ensures JobOk(requests, Next(requests, s, e), e.job)
  {
  }

  lemma WorkerOthers(requests: nat -> string, s: State, e: Event)
    requires Inv(requests, s) && Enabled(s, e) && IsWorker(e)
    ensures forall i :: i != e.job ==> JobOk(requests, Next(requests, s, e), i)
  {
    var r := Next(requests, s, e);
    forall i | i != e.job ensures JobOk(requests, r, i) {
      assert JobOk(requests, s, i);
      OtherJob(requests, s, r, e.job, i);
    }
  }

  /** A published job stays published, and its request stays until the job is over. */
  lemma WorkerPublished(requests: nat -> string, s: State, e: Event)
    requires Enabled(s, e) && IsWorker(e)
    ensures var r := Next(requests, s, e);
            && r.sidecar == s.sidecar && r.served == s.served
            && (forall i :: i != e.job ==>
                  PhaseOf(r, i) == PhaseOf(s, i) && (Request(i) in r.files <==> Request(i) in s.files))
            && (!IsUnpublished(PhaseOf(s, e.job)) ==> !IsUnpublished(PhaseOf(r, e.job)))
            && !IsOver(PhaseOf(s, e.job))
            && (Request(e.job) in s.files ==> Request(e.job) in r.files || IsOver(PhaseOf(r, e.job)))
  {
  }

  /** The worker never takes back what it has published, and never touches what the sidecar has in hand. */
  lemma WorkerSidecar(requests: nat -> string, s: State, e: Event)
    requires Inv(requests, s) && Enabled(s, e) && IsWorker(e)
    ensures SidecarOk(requests, Next(requests, s, e))
  {
    assert SidecarOk(requests, s);
    hide JobOk, Inv, Next, IsUnpublished, IsOver, Enabled, PhaseOf;
    WorkerPublished(requests, s, e);
  }

  lemma WorkerKeeps(requests: nat -> string, s: State, e: Event)
    requires Inv(requests, s) && Enabled(s, e) && IsWorker(e)
    ensures Inv(requests, Next(requests, s, e))
  {
    hide JobOk, SidecarOk, Next;
    WorkerJob(requests, s, e);
    WorkerOthers(requests, s, e);
    WorkerSidecar(requests, s, e);
    assert Inv(requests, Next(requests, s, e)) by {
      forall i ensures JobOk(requests, Next(requests, s, e), i) {
        if i != e.job {
        }
      }
    }
  }

  // ---- Every step of the sidecar keeps it ----

  lemma SidecarJob(requests: nat -> string, s: State, e: Event)
    requires Inv(requests, s) && Enabled(s, e) && !IsWorker(e) && s.sidecar.Busy?
    ensures JobOk(requests, Next(requests, s, e), s.sidecar.queue[0])
  {
    var j := s.sidecar.queue[0];
    assert JobOk(requests, s, j);
    assert j in s.sidecar.queue;
  }

  lemma SidecarOthers(requests: nat -> string, s: State, e: Event)
    requires Inv(requests, s) && Enabled(s, e) && !IsWorker(e) && s.sidecar.Busy?
    ensures forall i :: i != s.sidecar.queue[0] ==> JobOk(requests, Next(requests, s, e), i)
  {
    var r := Next(requests, s, e);
    var j := s.sidecar.queue[0];
    forall i | i != j ensures JobOk(requests, r, i) {
      assert JobOk(requests, s, i);
      OtherJob(requests, s, r, j, i);
    }
  }

  lemma QueueRest(queue: seq<nat>)
    requires queue != [] && forall a, b :: 0 <= a < b < |queue| ==> queue[a] != queue[b]
    ensures var rest := queue[1..];
            && (forall a, b :: 0 <= a < b < |rest| ==> rest[a] != rest[b])
            && (forall j :: j in rest ==> j in queue && j != queue[0])
            && (forall k :: 0 <= k < |rest| ==> rest[k] == queue[k + 1])
  {
  }

  /** What the sidecar reads is the request of the job, or nothing when the worker is done with it. */
  lemma PickAnswer(requests: nat -> string, s: State, j: nat)
    requires JobOk(requests, s, j) && (Request(j) in s.files || IsOver(PhaseOf(s, j)))
    ensures AnswerOk(requests, s, j,
                     if Request(j) in s.files && s.files[Request(j)].Asked?
                     then Some(s.files[Request(j)].request) else None)
  {
  }

  /** A step within a job keeps the queue. */
  lemma SidecarStays(requests: nat -> string, s: State, r: State)
    requires SidecarOk(requests, s) && s.sidecar.Busy? && r.phases == s.phases && r.served == s.served
    requires r.sidecar.Busy? && r.sidecar.queue == s.sidecar.queue && r.sidecar.step != Picked
    requires forall i :: i != s.sidecar.queue[0] ==> (Request(i) in r.files <==> Request(i) in s.files)
    requires var step := r.sidecar.step;
             step.Ready? || step.Opened? || step.Complete? ==> AnswerOk(requests, s, s.sidecar.queue[0], step.answer)
    ensures SidecarOk(requests, r)
  {
    assert forall j :: PhaseOf(r, j) == PhaseOf(s, j);
  }

  /** After a job, the others are still to do. */
  lemma SidecarMovesOn(requests: nat -> string, s: State, r: State)
    requires SidecarOk(requests, s) && s.sidecar.Busy? && r.phases == s.phases
    requires r.served == s.served + {s.sidecar.queue[0]} && s.sidecar.queue[1..] != []
    requires r.sidecar == Busy(s.sidecar.queue[1..], Picked)
    requires forall i :: i != s.sidecar.queue[0] ==> (Request(i) in r.files <==> Request(i) in s.files)
    ensures SidecarOk(requests, r)
  {
    var queue := s.sidecar.queue;
    QueueRest(queue);
    assert forall j :: PhaseOf(r, j) == PhaseOf(s, j);
    forall k | 0 <= k < |queue| - 1
      ensures Request(queue[1..][k]) in r.files || IsOver(PhaseOf(r, queue[1..][k]))
    {
      assert queue[1..][k] == queue[k + 1];
    }
  }

  lemma SidecarSelf(requests: nat -> string, s: State, e: Event)
    requires Inv(requests, s) && Enabled(s, e) && !IsWorker(e) && s.sidecar.Busy?
    ensures SidecarOk(requests, Next(requests, s, e))
  {
    assert SidecarOk(requests, s);
    var r := Next(requests, s, e);
    var j := s.sidecar.queue[0];
    assert JobOk(requests, s, j);
    hide JobOk, SidecarOk, AnswerOk;
    if e.Pick? {
      FirstThere(requests, s);
      PickAnswer(requests, s, j);
    } else if s.sidecar.step.Ready? || s.sidecar.step.Opened? || s.sidecar.step.Complete? {
      AnswerThere(requests, s);
    }
    if r.sidecar.Busy? {
      if r.sidecar.queue == s.sidecar.queue && r.served == s.served {
        SidecarStays(requests, s, r);
      } else {
        SidecarMovesOn(requests, s, r);
      }
    } else {
      AsleepOk(requests, r);
    }
  }

  lemma FirstThere(requests: nat -> string, s: State)
    requires SidecarOk(requests, s) && s.sidecar.Busy? && s.sidecar.step == Picked
    ensures s.sidecar.queue != []
    ensures Request(s.sidecar.queue[0]) in s.files || IsOver(PhaseOf(s, s.sidecar.queue[0]))
  {
  }

  lemma AnswerThere(requests: nat -> string, s: State)
    requires SidecarOk(requests, s) && s.sidecar.Busy?
    requires s.sidecar.step.Ready? || s.sidecar.step.Opened? || s.sidecar.step.Complete?
    ensures s.sidecar.queue != [] && AnswerOk(requests, s, s.sidecar.queue[0], s.sidecar.step.answer)
  {
  }

  lemma AsleepOk(requests: nat -> string, s: State)
    requires !s.sidecar.Busy?
    ensures SidecarOk(requests, s)
  {
  }

  lemma WakeKeeps(requests: nat -> string, s: State, e: Event)
    requires Inv(requests, s) && Enabled(s, e) && (e.Wake? || e.Trigger?)
    ensures Inv(requests, Next(requests, s, e))
  {
    var r := Next(requests, s, e);
    forall j ensures JobOk(requests, r, j) {
      assert JobOk(requests, s, j);
    }
    forall j | e.Wake? && j in e.queue
      ensures !IsUnpublished(PhaseOf(r, j)) && j !in r.served && Request(j) in r.files {
      assert JobOk(requests, s, j);
    }
  }

  /** Every step keeps the invariant. */
  lemma StepKeeps(requests: nat -> string, s: State, e: Event)
    requires Inv(requests, s) && Enabled(s, e)
    ensures Inv(requests, Next(requests, s, e))
  {
    hide JobOk, SidecarOk, Next;
    if IsWorker(e) {
      WorkerKeeps(requests, s, e);
    } else if e.Wake? || e.Trigger? {
      WakeKeeps(requests, s, e);
    } else {
      SidecarJob(requests, s, e);
      SidecarOthers(requests, s, e);
      SidecarSelf(requests, s, e);
      forall i ensures JobOk(requests, Next(requests, s, e), i) {
        if i != s.sidecar.queue[0] {
        }
      }
    }
  }
}
