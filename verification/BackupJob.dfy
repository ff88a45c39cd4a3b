/** `execute_job`: one message of the queue, every call that can fail on the way, and its one answer to the broker. */
module BackupJob {
  import opened Text

  // ---- What can happen ----

  /** How a step fails: Odoo cannot be reached or refuses the key; Odoo answers with an error; the bytes of its answer
      are no text; anything else. */
  datatype Failure = Unavailable | Refused | Undecodable | Other

  datatype JobState = Processing | Done | Failed

  /** The calls of Odoo. */
  datatype Call =
    | WriteState(state: JobState)
    | AppendLog
    | SyncSnapshots
    | ProcessSnapshots
    | ReportFailure
    | WriteDrillTime

  /** What is seen from outside, in order. */
  datatype Event =
    | Odoo(call: Call, failure: Option<Failure>)
    | Ack
    | Nack
    | HandOver // the request is published in the spool directory
    | Run      // a command is run by the worker itself

  /** What the message says: text that is not JSON; JSON but no object, or bytes that are no text; no job id or no
      engine; or a job. */
  datatype Body = NotJson | NotObject | Incomplete | Job(hasConfig: bool, engine: Engine)

  datatype Engine = Kopia | Pgbackrest | KopiaPolicy | SyncSnapshotsOf | RestoreDrill | RestoreCmd

  /** How the command goes. It cannot be built or prepared; it is for the sidecar, and the request may fail to be
      published, or something may fail after that; or the worker runs it, trying to send the log `updates` times, and it
      may fail to start or while it runs. */
  datatype Plan =
    | Unprepared
    | Delegated(published: bool, fails: bool, code: int)
    | Direct(starts: bool, updates: nat, breaks: bool, code: int)

  /** Whether the output of a snapshot listing can be read. */
  datatype Listing = Readable | Unreadable

  /** The answers of Odoo: how its n-th call goes. */
  type Answers = nat -> Option<Failure>

  // ---- The run as a function ----

  function Calls(t: seq<Event>): nat {
    if t == [] then 0 else (if t[0].Odoo? then 1 else 0) + Calls(t[1..])
  }

  /** One call of Odoo after the events `t`. */
  function Ask(odoo: Answers, t: seq<Event>, call: Call): (seq<Event>, Option<Failure>) {
    var f := odoo(Calls(t));
    (t + [Odoo(call, f)], f)
  }

  /** The calls of `calls` one after the other, up to the first that fails. */
  function AskAll(odoo: Answers, t: seq<Event>, calls: seq<Call>): (seq<Event>, Option<Failure>)
    decreases |calls|
  {
    if calls == [] then (t, None)
    else
      var (u, f) := Ask(odoo, t, calls[0]);
      if f.Some? then (u, f) else AskAll(odoo, u, calls[1..])
  }

  /** The throttled updates of the log while the command runs. A failed one ends the run of the job: the calls of Odoo
      turn every connection error into an error of their own, which the handler around the update does not catch. */
  function Updates(n: nat): seq<Call> {
    if n == 0 then [] else [AppendLog] + Updates(n - 1)
  }

  /** The command, from building it to its return code. */
  function Command(odoo: Answers, plan: Plan, t: seq<Event>): (seq<Event>, Option<Failure>, int) {
    match plan
    case Unprepared => (t, Some(Other), 0)
    case Delegated(published, fails, code) =>
      // acknowledged before the long wait
      if !published then (t + [Ack], Some(Other), 0)
      else (t + [Ack, HandOver], if fails then Some(Other) else None, code)
    case Direct(starts, updates, breaks, code) =>
      if !starts then (t, Some(Other), 0)
      else
        var (u, f) := AskAll(odoo, t + [Run], Updates(updates));
        (u, if f.Some? then f else if breaks then Some(Other) else None, code)
  }

  /** What follows a job that is done. A listing that cannot be read is reported, and so is an answer to it that is no
      text. */
  function FollowUp(odoo: Answers, t: seq<Event>, engine: Engine, listing: Listing): (seq<Event>, Option<Failure>) {
    match engine
    case Kopia => Ask(odoo, t, SyncSnapshots)
    case Pgbackrest => Ask(odoo, t, SyncSnapshots)
    case RestoreCmd => Ask(odoo, t, SyncSnapshots)
    case SyncSnapshotsOf =>
      if listing == Unreadable then Ask(odoo, t, ReportFailure)
      else
        var (u, f) := Ask(odoo, t, ProcessSnapshots);
        if f == Some(Undecodable) then Ask(odoo, u, ReportFailure) else (u, f)
    case RestoreDrill => Ask(odoo, t, WriteDrillTime)
    case KopiaPolicy => (t, None)
  }

  /** What is done after a command has ended with `code`. The exit message is always left to send. */
  function Close(odoo: Answers, t: seq<Event>, engine: Engine, listing: Listing, code: int): (seq<Event>,
                 Option<Failure>) {
    if code != 0 then AskAll(odoo, t, [WriteState(Failed), AppendLog, ReportFailure])
    else
      var (u, f) := AskAll(odoo, t, [WriteState(Done), AppendLog]);
      if f.Some? then (u, f) else FollowUp(odoo, u, engine, listing)
  }

  /** `ack()`: at most once. */
  function Acknowledge(t: seq<Event>): seq<Event> { if Ack in t || Nack in t then t else t + [Ack] }

  /** `requeue()`: never after `ack()`. */
  function Requeue(t: seq<Event>): seq<Event> { if Ack in t || Nack in t then t else t + [Nack] }

  /** The body of the outer `try`: what happened, and the exception that left it. */
  function Attempt(odoo: Answers, body: Body, plan: Plan, listing: Listing): (seq<Event>, Option<Failure>) {
    match body
    case NotJson => (Acknowledge([]), None)
    case NotObject => ([], Some(Other))
    case Incomplete => (Acknowledge([]), None)
    case Job(_, engine) =>
      var (t, f) := Ask(odoo, [], WriteState(Processing));
      if f.Some? then (t, f)
      else
        var (u, g, code) := Command(odoo, plan, t);
        if g.Some? then (u, g)
        else
          var (v, h) := Close(odoo, u, engine, listing, code);
          if h.Some? then (v, h) else (Acknowledge(v), None)
  }

  /** What the handler tells Odoo about a failure. */
  function Report(body: Body): seq<Call> {
    match body
    case Job(hasConfig, _) => [WriteState(Failed), AppendLog] + (if hasConfig then [ReportFailure] else [])
    case _ => []
  }

  /** The handler around it. A body that is no object fails again while it is reported. */
  function Handle(odoo: Answers, body: Body, t: seq<Event>, e: Failure): seq<Event> {
    var (u, f) := if body == NotObject then (t, Some(Other)) else AskAll(odoo, t, Report(body));
    if f.Some? && (e == Unavailable || f == Some(Unavailable)) then Requeue(u) else Acknowledge(u)
  }

  /** `execute_job`. */
  function Execute(odoo: Answers, body: Body, plan: Plan, listing: Listing): seq<Event> {
    var (t, e) := Attempt(odoo, body, plan, listing);
    if e == None then t else Handle(odoo, body, t, e.value)
  }

  // ---- The same, step by step ----

  class Worker {
    var events: seq<Event>
    var asked: nat
    const odoo: Answers

    constructor (odoo: Answers)
      ensures this.odoo == odoo && events == [] && Valid()
    {
      this.odoo := odoo;
      events := [];
      asked := 0;
    }

    ghost predicate Valid()
      reads this
    {
      asked == Calls(events)
    }

    /** `_json2_call`. */
    method Json2(call: Call) returns (f: Option<Failure>)
      requires Valid()
      modifies this
      ensures Valid() && (events, f) == Ask(odoo, old(events), call)
    {
      f := odoo(asked);
      CallsConcat(events, [Odoo(call, f)]);
      events := events + [Odoo(call, f)];
      asked := asked + 1;
    }

    method Json2All(calls: seq<Call>) returns (f: Option<Failure>)
      requires Valid()
      modifies this
      ensures Valid() && (events, f) == AskAll(odoo, old(events), calls)
    {
      assert calls[0..] == calls;
      for k := 0 to |calls|
        invariant Valid()
        invariant AskAll(odoo, old(events), calls) == AskAll(odoo, events, calls[k..])
      {
        Rest(calls, k);
        f := Json2(calls[k]);
        if f.Some? {
          return;
        }
      }
      assert calls[|calls|..] == [];
      return None;
    }

    method Emit(e: Event)
      requires Valid() && !e.Odoo?
      modifies this
      ensures Valid() && events == old(events) + [e]
    {
      CallsConcat(events, [e]);
      events := events + [e];
    }

    method SendAck()
      requires Valid()
      modifies this
      ensures Valid() && events == Acknowledge(old(events))
    {
      if Ack !in events && Nack !in events {
        Emit(Ack);
      }
    }

    method SendNack()
      requires Valid()
      modifies this
      ensures Valid() && events == Requeue(old(events))
    {
      if Ack !in events && Nack !in events {
        Emit(Nack);
      }
    }

    method RunCommand(plan: Plan) returns (f: Option<Failure>, code: int)
      requires Valid() && Ack !in events && Nack !in events
      modifies this
      ensures Valid() && (events, f, code) == Command(odoo, plan, old(events))
    {
      match plan {
        case Unprepared => return Some(Other), 0;
        case Delegated(published, fails, c) =>
          // acknowledged before the long wait
          SendAck();
          if !published {
            return Some(Other), 0;
          }
          Emit(HandOver);
          assert events == old(events) + [Ack, HandOver];
          return if fails then Some(Other) else None, c;
        case Direct(starts, updates, breaks, c) =>
          if !starts {
            return Some(Other), 0;
          }
          Emit(Run);
          f := Json2All(Updates(updates));
          if f == None && breaks {
            f := Some(Other);
          }
          return f, c;
      }
    }

    method FollowUpJob(engine: Engine, listing: Listing) returns (f: Option<Failure>)
      requires Valid()
      modifies this
      ensures Valid() && (events, f) == FollowUp(odoo, old(events), engine, listing)
    {
      match engine {
        case Kopia => f := Json2(SyncSnapshots);
        case Pgbackrest => f := Json2(SyncSnapshots);
        case RestoreCmd => f := Json2(SyncSnapshots);
        case SyncSnapshotsOf =>
          if listing == Readable {
            f := Json2(ProcessSnapshots);
          }
          if listing == Unreadable || f == Some(Undecodable) {
            f := Json2(ReportFailure);
          }
        case RestoreDrill => f := Json2(WriteDrillTime);
        case KopiaPolicy => f := None;
      }
    }

    method CloseJob(engine: Engine, listing: Listing, code: int) returns (f: Option<Failure>)
      requires Valid()
      modifies this
      ensures Valid() && (events, f) == Close(odoo, old(events), engine, listing, code)
    {
      hide AskAll, FollowUp;
      if code != 0 {
        f := Json2All([WriteState(Failed), AppendLog, ReportFailure]);
      } else {
        f := Json2All([WriteState(Done), AppendLog]);
        if f == None {
          f := FollowUpJob(engine, listing);
        }
      }
    }

    method TryJob(body: Body, plan: Plan, listing: Listing) returns (e: Option<Failure>)
      requires Valid() && events == []
      modifies this
      ensures Valid() && (events, e) == Attempt(odoo, body, plan, listing)
    {
      hide Command, Close;
      if body.NotJson? || body.Incomplete? {
        SendAck();
        return None;
      }
      if body.NotObject? {
        return Some(Other);
      }
      e := Json2(WriteState(Processing));
      if e.Some? {
        return;
      }
      var code;
      e, code := RunCommand(plan);
      if e.Some? {
        return;
      }
      e := CloseJob(body.engine, listing, code);
      if e == None {
        SendAck();
      }
    }

    method ExecuteJob(body: Body, plan: Plan, listing: Listing)
      requires Valid() && events == []
      modifies this
      ensures events == Execute(odoo, body, plan, listing)
    {
      hide Attempt, AskAll, Report;
      var e := TryJob(body, plan, listing);
      if e.Some? {
        var inner := Some(Other);
        if body != NotObject {
          inner := Json2All(Report(body));
        }
        if inner.Some? && (e == Some(Unavailable) || inner == Some(Unavailable)) {
          SendNack();
        } else {
          SendAck();
        }
      }
    }
  }

  lemma {:induction false} CallsConcat(a: seq<Event>, b: seq<Event>)
    ensures Calls(a + b) == Calls(a) + Calls(b)
  {
    if a == [] {
      assert a + b == b;
    } else {
      assert (a + b)[1..] == a[1..] + b;
      CallsConcat(a[1..], b);
    }
  }

  // ---- Exactly one answer ----

  /** How many answers to the broker there are. */
  function Replies(t: seq<Event>): nat {
    if t == [] then 0 else (if t[0] == Ack || t[0] == Nack then 1 else 0) + Replies(t[1..])
  }

  lemma {:induction false} RepliesConcat(a: seq<Event>, b: seq<Event>)
    ensures Replies(a + b) == Replies(a) + Replies(b)
  {
    if a == [] {
      assert a + b == b;
    } else {
      assert (a + b)[1..] == a[1..] + b;
      RepliesConcat(a[1..], b);
    }
  }

  lemma {:induction false} RepliesNone(t: seq<Event>)
    ensures Replies(t) == 0 <==> Ack !in t && Nack !in t
  {
    if t != [] {
      RepliesNone(t[1..]);
    }
  }

  ghost predicate OnlyCalls(t: seq<Event>) {
    forall k :: 0 <= k < |t| ==> t[k].Odoo?
  }

  /** What a row of calls adds: its calls, each as it went; they end at the first that fails. */
  lemma {:induction false} AskAllAdds(odoo: Answers, t: seq<Event>, calls: seq<Call>) returns (more: seq<Event>)
    ensures AskAll(odoo, t, calls).0 == t + more && OnlyCalls(more)
    ensures |more| <= |calls| && forall k :: 0 <= k < |more| ==> more[k].call == calls[k]
    ensures calls != [] ==> more != [] && more[0].failure == odoo(Calls(t))
    ensures AskAll(odoo, t, calls).1 == None ==>
              |more| == |calls| && forall k :: 0 <= k < |calls| ==> more[k] == Odoo(calls[k], None)
    ensures AskAll(odoo, t, calls).1.Some? ==> more != [] && more[|more| - 1].failure == AskAll(odoo, t, calls).1
    decreases |calls|
  {
    if calls == [] {
      more := [];
    } else {
      var (u, f) := Ask(odoo, t, calls[0]);
      if f.Some? {
        more := [Odoo(calls[0], f)];
      } else {
        var rest := AskAllAdds(odoo, u, calls[1..]);
        more := [Odoo(calls[0], f)] + rest;
        Regroup(t, [Odoo(calls[0], f)], rest);
      }
    }
  }

  lemma FollowUpAdds(odoo: Answers, t: seq<Event>, engine: Engine, listing: Listing) returns (more: seq<Event>)
    ensures FollowUp(odoo, t, engine, listing).0 == t + more && OnlyCalls(more)
    ensures forall k :: 0 <= k < |more| ==> !more[k].call.WriteState?
    ensures FollowUp(odoo, t, engine, listing).1.Some? ==>
              more != [] && more[|more| - 1].failure == FollowUp(odoo, t, engine, listing).1
  {
    var u := FollowUp(odoo, t, engine, listing).0;
    more := u[|t|..];
    if engine == SyncSnapshotsOf && listing == Readable && odoo(Calls(t)) == Some(Undecodable) {
      var v := Ask(odoo, t, ProcessSnapshots).0;
      var f := odoo(Calls(v));
      Regroup(t, [Odoo(ProcessSnapshots, Some(Undecodable))], [Odoo(ReportFailure, f)]);
      assert more == [Odoo(ProcessSnapshots, Some(Undecodable))] + [Odoo(ReportFailure, f)];
    }
  }

  /** What closing a job adds: first its final state, and no state after that. */
  lemma CloseAdds(odoo: Answers, t: seq<Event>, engine: Engine, listing: Listing, code: int) returns (more: seq<Event>)
    ensures var (u, f) := Close(odoo, t, engine, listing, code);
            && u == t + more && OnlyCalls(more)
            && more != [] && more[0] == Odoo(WriteState(if code == 0 then Done else Failed), odoo(Calls(t)))
            && (forall k :: 1 <= k < |more| ==> !more[k].call.WriteState?)
            && (f == None ==> odoo(Calls(t)) == None)
            && (f.Some? ==> more[|more| - 1].failure == f)
  {
    hide AskAll, FollowUp;
    if code != 0 {
      more := AskAllAdds(odoo, t, [WriteState(Failed), AppendLog, ReportFailure]);
    } else {
      more := AskAllAdds(odoo, t, [WriteState(Done), AppendLog]);
      var (u, f) := AskAll(odoo, t, [WriteState(Done), AppendLog]);
      if f == None {
        var rest := FollowUpAdds(odoo, u, engine, listing);
        Regroup(t, more, rest);
        more := more + rest;
      }
    }
  }

  lemma AskAllReplies(odoo: Answers, t: seq<Event>, calls: seq<Call>)
    ensures Replies(AskAll(odoo, t, calls).0) == Replies(t)
    ensures forall e: Event :: !e.Odoo? ==> (e in AskAll(odoo, t, calls).0 <==> e in t)
  {
    var more := AskAllAdds(odoo, t, calls);
    CallsOnlyAdded(t, more);
  }

  lemma CallsOnlyAdded(t: seq<Event>, more: seq<Event>)
    requires OnlyCalls(more)
    ensures Replies(t + more) == Replies(t)
    ensures forall e: Event :: !e.Odoo? ==> (e in t + more <==> e in t)
  {
    RepliesConcat(t, more);
    RepliesNone(more);
  }

  lemma AcknowledgeReplies(t: seq<Event>)
    requires Replies(t) <= 1
    ensures Replies(Acknowledge(t)) == 1 == Replies(Requeue(t))
  {
    RepliesNone(t);
    RepliesConcat(t, [Ack]);
    RepliesConcat(t, [Nack]);
    assert [Ack][1..] == [] && [Nack][1..] == [];
  }

  /** What an attempt leaves: no negative answer, at most one answer, and one exactly if it ended well or the command
      was for the sidecar. */
  lemma AttemptReplies(odoo: Answers, body: Body, plan: Plan, listing: Listing)
    ensures var (t, e) := Attempt(odoo, body, plan, listing);
            && Nack !in t && Replies(t) <= 1 && (e == None ==> Ack in t)
            && (e.Some? ==> (Ack in t <==> body.Job? && odoo(0) == None && plan.Delegated?))
            && (HandOver in t <==> body.Job? && odoo(0) == None && plan.Delegated? && plan.published)
  {
    hide AskAll, Close, Command;
    RepliesNone([]);
    if body.Job? {
      var (t, f) := Ask(odoo, [], WriteState(Processing));
      assert t == [Odoo(WriteState(Processing), f)] && t[1..] == [];
      if f == None {
        CommandReplies(odoo, plan, t);
        var (u, g, code) := Command(odoo, plan, t);
        if g == None {
          var more := CloseAdds(odoo, u, body.engine, listing, code);
          CallsOnlyAdded(u, more);
          AcknowledgeReplies(u + more);
        }
      }
    } else {
      AcknowledgeReplies([]);
    }
  }

  lemma CommandReplies(odoo: Answers, plan: Plan, t: seq<Event>)
    requires Replies(t) == 0 && HandOver !in t
    ensures var u := Command(odoo, plan, t).0;
            && Nack !in u && Replies(u) <= 1 && (Ack in u <==> plan.Delegated?)
            && (HandOver in u <==> plan.Delegated? && plan.published)
  {
    hide AskAll;
    RepliesNone(t);
    match plan
    case Unprepared =>
    case Delegated(published, _, _) =>
      var more := if published then [Ack, HandOver] else [Ack];
      RepliesConcat(t, more);
      assert [Ack, HandOver][1..] == [HandOver] && [HandOver][1..] == [] && [Ack][1..] == [];
    case Direct(starts, updates, _, _) =>
      RepliesConcat(t, [Run]);
      assert [Run][1..] == [];
      AskAllReplies(odoo, t + [Run], Updates(updates));
  }

  /** Whatever fails, exactly one answer is sent. */
  lemma OneReply(odoo: Answers, body: Body, plan: Plan, listing: Listing)
    ensures Replies(Execute(odoo, body, plan, listing)) == 1
  {
    hide Attempt, AskAll, Report;
    AttemptReplies(odoo, body, plan, listing);
    var (t, e) := Attempt(odoo, body, plan, listing);
    if e == None {
      RepliesNone(t);
    } else {
      AskAllReplies(odoo, t, Report(body));
      AcknowledgeReplies(t);
      AcknowledgeReplies(AskAll(odoo, t, Report(body)).0);
    }
  }

  /** How reporting goes after the attempt failed. */
  function Reporting(odoo: Answers, body: Body, t: seq<Event>): Option<Failure> {
    if body == NotObject then Some(Other) else AskAll(odoo, t, Report(body)).1
  }

  /** The message is put back if and only if the attempt failed without an acknowledgement for the sidecar, the failure
      could not be reported, and one of the two failures was that Odoo was unavailable. */
  lemma NackExactly(odoo: Answers, body: Body, plan: Plan, listing: Listing)
    ensures var (t, e) := Attempt(odoo, body, plan, listing);
            Nack in Execute(odoo, body, plan, listing) <==>
            && e.Some? && !(body.Job? && odoo(0) == None && plan.Delegated?)
            && Reporting(odoo, body, t).Some?
            && (e == Some(Unavailable) || Reporting(odoo, body, t) == Some(Unavailable))
  {
    hide Attempt, AskAll, Report;
    AttemptReplies(odoo, body, plan, listing);
    var (t, e) := Attempt(odoo, body, plan, listing);
    AskAllReplies(odoo, t, Report(body));
    OneReply(odoo, body, plan, listing);
  }

  lemma AttemptUnavailable(odoo: Answers, body: Body, plan: Plan, listing: Listing)
    ensures Attempt(odoo, body, plan, listing).1 == Some(Unavailable) ==>
              exists k :: 0 <= k < |Attempt(odoo, body, plan, listing).0| &&
                Attempt(odoo, body, plan, listing).0[k].Odoo? &&
                Attempt(odoo, body, plan, listing).0[k].failure == Some(Unavailable)
  {
    hide AskAll, Close, Updates;
    if body.Job? {
      var (t, f) := Ask(odoo, [], WriteState(Processing));
      if f.Some? {
        assert t[0].failure == f;
      } else {
        var (u, g, code) := Command(odoo, plan, t);
        if plan.Direct? && plan.starts {
          var more := AskAllAdds(odoo, t + [Run], Updates(plan.updates));
          if g == Some(Unavailable) {
            assert u[|u| - 1] == more[|more| - 1];
          }
        }
        if g == None {
          var more := CloseAdds(odoo, u, body.engine, listing, code);
          var (v, h) := Close(odoo, u, body.engine, listing, code);
          if h == Some(Unavailable) {
            assert v[|v| - 1] == more[|more| - 1];
          }
        }
      }
    }
  }

  /** A job that was handed to the sidecar is never put back, and it was acknowledged before. */
  lemma HandedOverOnce(odoo: Answers, body: Body, plan: Plan, listing: Listing, k: nat)
    requires k < |Execute(odoo, body, plan, listing)| && Execute(odoo, body, plan, listing)[k] == HandOver
    ensures Nack !in Execute(odoo, body, plan, listing)
    ensures Ack in Execute(odoo, body, plan, listing)[..k]
  {
    hide AskAll, Report, Attempt;
    var (t, e) := Attempt(odoo, body, plan, listing);
    AttemptReplies(odoo, body, plan, listing);
    if e.Some? && body != NotObject {
      AskAllReplies(odoo, t, Report(body));
    }
    assert HandOver in t;
    HandOverPlace(odoo, body, plan, listing);
    NackExactly(odoo, body, plan, listing);
  }

  /** A job that is handed over begins with the note in Odoo, the acknowledgement and the hand-over, and nothing else is
      handed over after it. */
  lemma HandOverPlace(odoo: Answers, body: Body, plan: Plan, listing: Listing)
    requires body.Job? && odoo(0) == None && plan.Delegated? && plan.published
    ensures var x := Execute(odoo, body, plan, listing);
            |x| >= 3 && x[1] == Ack && x[2] == HandOver && forall k :: 0 <= k < |x| && x[k] == HandOver ==> k == 2
  {
    hide AskAll, Report, Close;
    var (t, f) := Ask(odoo, [], WriteState(Processing));
    var (u, g, code) := Command(odoo, plan, t);
    assert u == [Odoo(WriteState(Processing), f), Ack, HandOver];
    var w := u;
    var e := g;
    if g == None {
      var more := CloseAdds(odoo, u, body.engine, listing, code);
      w := u + more;
      e := Close(odoo, u, body.engine, listing, code).1;
    }
    assert Ack in w by { assert w[1] == Ack; }
    if e.Some? {
      var more := AskAllAdds(odoo, w, Report(body));
      var x := w + more;
      assert Ack in x by { assert x[1] == Ack; }
    }
  }

  // ---- No job is lost ----

  /** A final state of the job was recorded. */
  ghost predicate Recorded(t: seq<Event>) {
    Odoo(WriteState(Done), None) in t || Odoo(WriteState(Failed), None) in t
  }

  lemma RecordedIn(t: seq<Event>, more: seq<Event>)
    ensures Recorded(t + more) <==> Recorded(t) || Recorded(more)
  {
  }

  /** What is left of a failed attempt is its report, which begins with the final state. */
  lemma HandleAdds(odoo: Answers, body: Body, t: seq<Event>, e: Failure) returns (more: seq<Event>, answer: seq<Event>)
    requires body.Job?
    ensures Handle(odoo, body, t, e) == t + more + answer && OnlyCalls(more)
    ensures (answer == [] || answer == [Ack] || answer == [Nack])
    ensures more != [] && more[0] == Odoo(WriteState(Failed), odoo(Calls(t)))
    ensures forall k :: 1 <= k < |more| ==> !more[k].call.WriteState?
    ensures odoo(Calls(t)).Some? ==> Reporting(odoo, body, t) == odoo(Calls(t)) && |more| == 1
  {
    hide AskAll;
    var calls := Report(body);
    more := AskAllAdds(odoo, t, calls);
    FirstFails(odoo, t, calls);
    var u := t + more;
    answer := Handle(odoo, body, t, e)[|u|..];
    Regroup(u, [], []);
  }

  lemma FirstFails(odoo: Answers, t: seq<Event>, calls: seq<Call>)
    requires calls != []
    ensures odoo(Calls(t)).Some? ==> AskAll(odoo, t, calls) == Ask(odoo, t, calls[0])
  {
  }

  /** A job is acknowledged without a final state on record if and only if it failed before that was recorded, its
      failure could not be recorded either, and it had been acknowledged for the sidecar before, or neither failure was
      that Odoo was unavailable. */
  lemma UnrecordedExactly(odoo: Answers, body: Body, plan: Plan, listing: Listing)
    requires body.Job?
    ensures var (t, e) := Attempt(odoo, body, plan, listing);
            Ack in Execute(odoo, body, plan, listing) && !Recorded(Execute(odoo, body, plan, listing)) <==>
            && e.Some? && !Recorded(t) && odoo(Calls(t)).Some?
            && (|| (plan.Delegated? && odoo(0) == None)
                || (e != Some(Unavailable) && odoo(Calls(t)) != Some(Unavailable)))
  {
    hide AskAll, Attempt, Handle, Recorded;
    var (t, e) := Attempt(odoo, body, plan, listing);
    if e == None {
      EndedRecorded(odoo, body, plan, listing);
    } else {
      OneReply(odoo, body, plan, listing);
      NackExactly(odoo, body, plan, listing);
      AckOrNack(odoo, body, plan, listing);
      var more, answer := HandleAdds(odoo, body, t, e.value);
      RecordedIn(t + more, answer);
      RecordedIn(t, more);
      assert !Recorded(answer) && (Recorded(more) <==> more[0].failure == None) by { ReportRecorded(more, answer); }
    }
  }

  lemma ReportRecorded(more: seq<Event>, answer: seq<Event>)
    requires OnlyCalls(more) && more != [] && more[0].call == WriteState(Failed)
    requires forall k :: 1 <= k < |more| ==> !more[k].call.WriteState?
    requires answer == [] || answer == [Ack] || answer == [Nack]
    ensures !Recorded(answer) && (Recorded(more) <==> more[0].failure == None)
  {
    assert more[0] in more;
  }

  /** An attempt that ends well has recorded a final state. */
  lemma EndedRecorded(odoo: Answers, body: Body, plan: Plan, listing: Listing)
    requires body.Job? && Attempt(odoo, body, plan, listing).1 == None
    ensures Recorded(Attempt(odoo, body, plan, listing).0)
  {
    hide AskAll, Command, Close, Recorded;
    var n := Ask(odoo, [], WriteState(Processing)).0;
    var (u, g, code) := Command(odoo, plan, n);
    var more := CloseAdds(odoo, u, body.engine, listing, code);
    assert Recorded(more) by { FirstRecorded(more); }
    RecordedIn(u, more);
    RecordedIn(u + more, [Ack]);
  }

  lemma FirstRecorded(more: seq<Event>)
    requires more != [] && more[0].Odoo? && more[0].failure == None
    requires more[0].call == WriteState(Done) || more[0].call == WriteState(Failed)
    ensures Recorded(more)
  {
    assert more[0] in more;
  }

  /** A job is lost to an outage of Odoo, acknowledged and with nothing handed over and nothing recorded, exactly when
      it was for the sidecar, its request could not be published, and Odoo was not there to be told. */
  lemma LostToOutage(odoo: Answers, body: Body, plan: Plan, listing: Listing)
    requires body.Job?
    ensures var (t, e) := Attempt(odoo, body, plan, listing);
            var x := Execute(odoo, body, plan, listing);
            && Ack in x && HandOver !in x && !Recorded(x)
            && (e == Some(Unavailable) || Reporting(odoo, body, t) == Some(Unavailable))
            <==> odoo(0) == None && plan.Delegated? && !plan.published && odoo(1) == Some(Unavailable)
  {
    hide AskAll, Attempt, Handle, Recorded;
    var (t, e) := Attempt(odoo, body, plan, listing);
    UnrecordedExactly(odoo, body, plan, listing);
    AttemptReplies(odoo, body, plan, listing);
    if e.Some? {
      var more, answer := HandleAdds(odoo, body, t, e.value);
      CallsOnlyAdded(t, more);
    }
    if odoo(0) == None && plan.Delegated? && !plan.published {
      Unpublished(odoo, body, plan, listing);
    }
  }

  /** The attempt at a job whose request is not published. */
  lemma Unpublished(odoo: Answers, body: Body, plan: Plan, listing: Listing)
    requires body.Job? && odoo(0) == None && plan.Delegated? && !plan.published
    ensures var t := [Odoo(WriteState(Processing), None), Ack];
            Attempt(odoo, body, plan, listing) == (t, Some(Other)) && Calls(t) == 1 && !Recorded(t)
  {
    var n, t := [Odoo(WriteState(Processing), None)], [Odoo(WriteState(Processing), None), Ack];
    assert Ask(odoo, [], WriteState(Processing)) == (n, None) by { assert [] + n == n; }
    assert n + [Ack] == t;
    assert t[1..] == [Ack] && [Ack][1..] == [];
  }

  /** Such a run: the acknowledgement is all that the broker sees of it, and Odoo still shows the job at work. */
  lemma OutageWitness(odoo: Answers, hasConfig: bool, fails: bool, code: int, listing: Listing)
    requires odoo(0) == None && odoo(1) == Some(Unavailable)
    ensures Execute(odoo, Job(hasConfig, Pgbackrest), Delegated(false, fails, code), listing) ==
            [Odoo(WriteState(Processing), None), Ack, Odoo(WriteState(Failed), Some(Unavailable))]
  {
    hide Attempt;
    var body, plan := Job(hasConfig, Pgbackrest), Delegated(false, fails, code);
    var t := [Odoo(WriteState(Processing), None), Ack];
    Unpublished(odoo, body, plan, listing);
    FirstFails(odoo, t, Report(body));
    assert t + [Odoo(WriteState(Failed), Some(Unavailable))]
           == [t[0], t[1], Odoo(WriteState(Failed), Some(Unavailable))];
  }

  lemma {:induction false} TwoReplies(t: seq<Event>)
    requires Ack in t && Nack in t
    ensures Replies(t) >= 2
  {
    if t[0] == Ack {
      assert Nack in t[1..];
      RepliesNone(t[1..]);
    } else if t[0] == Nack {
      assert Ack in t[1..];
      RepliesNone(t[1..]);
    } else {
      TwoReplies(t[1..]);
    }
  }

  lemma AckOrNack(odoo: Answers, body: Body, plan: Plan, listing: Listing)
    ensures Ack in Execute(odoo, body, plan, listing) <==> Nack !in Execute(odoo, body, plan, listing)
  {
    hide Execute;
    OneReply(odoo, body, plan, listing);
    RepliesNone(Execute(odoo, body, plan, listing));
    if Ack in Execute(odoo, body, plan, listing) {
      AnswerUnique(odoo, body, plan, listing);
    }
  }

  lemma AnswerUnique(odoo: Answers, body: Body, plan: Plan, listing: Listing)
    requires Ack in Execute(odoo, body, plan, listing)
    ensures Nack !in Execute(odoo, body, plan, listing)
  {
    hide Execute;
    OneReply(odoo, body, plan, listing);
    if Nack in Execute(odoo, body, plan, listing) {
      TwoReplies(Execute(odoo, body, plan, listing));
    }
  }

  /** A message is put back only after a call of Odoo found it unavailable. */
  lemma NackMeansUnavailable(odoo: Answers, body: Body, plan: Plan, listing: Listing)
    requires Nack in Execute(odoo, body, plan, listing)
    ensures exists k :: 0 <= k < |Execute(odoo, body, plan, listing)| &&
              Execute(odoo, body, plan, listing)[k].Odoo? &&
              Execute(odoo, body, plan, listing)[k].failure == Some(Unavailable)
  {
    hide Attempt, AskAll, Report;
    NackExactly(odoo, body, plan, listing);
    AttemptReplies(odoo, body, plan, listing);
    AttemptUnavailable(odoo, body, plan, listing);
    var (t, e) := Attempt(odoo, body, plan, listing);
    var x := Execute(odoo, body, plan, listing);
    if body == NotObject {
      var k :| 0 <= k < |t| && t[k].Odoo? && t[k].failure == Some(Unavailable);
      assert x[k] == t[k];
    } else {
      var more := AskAllAdds(odoo, t, Report(body));
      if e == Some(Unavailable) {
        var k :| 0 <= k < |t| && t[k].Odoo? && t[k].failure == Some(Unavailable);
        assert x[k] == t[k];
      } else {
        assert x[|t| + |more| - 1] == more[|more| - 1];
      }
    }
  }

  // ---- When a job counts as done ----

  lemma NotDone(odoo: Answers, t: seq<Event>, calls: seq<Call>)
    requires Odoo(WriteState(Done), None) !in t && WriteState(Done) !in calls
    ensures Odoo(WriteState(Done), None) !in AskAll(odoo, t, calls).0
  {
    hide AskAll;
    var more := AskAllAdds(odoo, t, calls);
    assert forall k :: 0 <= k < |more| ==> more[k].call == calls[k] && calls[k] in calls;
  }

  lemma ReportNotDone(odoo: Answers, t: seq<Event>, body: Body)
    requires Odoo(WriteState(Done), None) !in t
    ensures Odoo(WriteState(Done), None) !in AskAll(odoo, t, Report(body)).0
  {
    hide AskAll;
    NotDone(odoo, t, Report(body));
  }

  /** A row of calls goes through if and only if each of them does. */
  lemma {:induction false} AskAllExactly(odoo: Answers, t: seq<Event>, calls: seq<Call>)
    ensures AskAll(odoo, t, calls).1 == None <==> forall k :: Calls(t) <= k < Calls(t) + |calls| ==> odoo(k) == None
    ensures AskAll(odoo, t, calls).1 == None ==> Calls(AskAll(odoo, t, calls).0) == Calls(t) + |calls|
    decreases |calls|
  {
    if calls != [] {
      var (u, f) := Ask(odoo, t, calls[0]);
      CallsConcat(t, [Odoo(calls[0], f)]);
      assert [Odoo(calls[0], f)][1..] == [];
      AskAllExactly(odoo, u, calls[1..]);
    }
  }

  lemma {:induction false} UpdatesAre(n: nat)
    ensures |Updates(n)| == n && forall c :: c in Updates(n) ==> c == AppendLog
  {
    if n > 0 {
      UpdatesAre(n - 1);
    }
  }

  /** The command and the updates of its log go well, the calls counted from `from`. */
  predicate GoesWell(odoo: Answers, plan: Plan, from: nat) {
    match plan
    case Unprepared => false
    case Delegated(published, fails, _) => published && !fails
    case Direct(starts, updates, breaks, _) =>
      starts && !breaks && forall k :: from <= k < from + updates ==> odoo(k) == None
  }

  /** How many calls the updates of the log make, and the code the command ends with. */
  function UpdateCount(plan: Plan): nat { if plan.Direct? then plan.updates else 0 }

  function Code(plan: Plan): int { if plan.Unprepared? then 0 else plan.code }

  lemma CommandExactly(odoo: Answers, plan: Plan, t: seq<Event>)
    requires Odoo(WriteState(Done), None) !in t
    ensures var (u, f, code) := Command(odoo, plan, t);
            && (f == None <==> GoesWell(odoo, plan, Calls(t)))
            && (f == None ==> Calls(u) == Calls(t) + UpdateCount(plan) && code == Code(plan))
            && Odoo(WriteState(Done), None) !in u
  {
    hide AskAll, Updates;
    match plan
    case Unprepared =>
    case Delegated(_, _, _) =>
      CallsConcat(t, [Ack, HandOver]);
      assert [Ack, HandOver][1..] == [HandOver] && [HandOver][1..] == [];
    case Direct(_, updates, _, _) =>
      CallsConcat(t, [Run]);
      assert [Run][1..] == [];
      UpdatesAre(updates);
      AskAllExactly(odoo, t + [Run], Updates(updates));
      NotDone(odoo, t + [Run], Updates(updates));
  }

  lemma CloseExactly(odoo: Answers, t: seq<Event>, engine: Engine, listing: Listing, code: int)
    requires Odoo(WriteState(Done), None) !in t
    ensures Odoo(WriteState(Done), None) in Close(odoo, t, engine, listing, code).0 <==>
            code == 0 && odoo(Calls(t)) == None
  {
    hide Close;
    var more := CloseAdds(odoo, t, engine, listing, code);
    assert more[0] in more;
  }

  /** Odoo is told that a job is done if and only if the job was noted in Odoo, its command was prepared, started and
      ended with code 0, every update of its log on the way was taken, and the note that it is done was taken too. One
      update of the log that fails, however it fails, is enough for a finished command not to count. */
  lemma DoneExactly(odoo: Answers, body: Body, plan: Plan, listing: Listing)
    ensures Odoo(WriteState(Done), None) in Execute(odoo, body, plan, listing) <==>
            && body.Job? && odoo(0) == None
            && GoesWell(odoo, plan, 1) && Code(plan) == 0 && odoo(UpdateCount(plan) + 1) == None
  {
    hide AskAll, Command, Close, GoesWell, Report;
    var (t, e) := Attempt(odoo, body, plan, listing);
    if body.Job? {
      var (n, f) := Ask(odoo, [], WriteState(Processing));
      assert n == [Odoo(WriteState(Processing), f)] && n[1..] == [];
      if f == None {
        CommandExactly(odoo, plan, n);
        var (u, g, code) := Command(odoo, plan, n);
        if g == None {
          CloseExactly(odoo, u, body.engine, listing, code);
          AfterClose(odoo, u, body, listing, code);
          return;
        }
      }
    }
    assert Odoo(WriteState(Done), None) !in t;
    ReportNotDone(odoo, t, body);
  }

  /** What follows the closing calls tells Odoo no more that the job is done, and takes nothing back. */
  lemma AfterClose(odoo: Answers, t: seq<Event>, body: Body, listing: Listing, code: int)
    requires body.Job? && Odoo(WriteState(Done), None) !in t
    ensures var (v, h) := Close(odoo, t, body.engine, listing, code);
            Odoo(WriteState(Done), None) in v <==>
            Odoo(WriteState(Done), None) in if h.Some? then Handle(odoo, body, v, h.value) else Acknowledge(v)
  {
    hide AskAll, Close, Report;
    var (v, h) := Close(odoo, t, body.engine, listing, code);
    if Odoo(WriteState(Done), None) in v {
      var more := AskAllAdds(odoo, v, Report(body));
    } else {
      ReportNotDone(odoo, v, body);
    }
  }

  /** A command that ran but lost one update of its log: the job is put back or recorded as failed, unless neither the
      update nor its report found Odoo unavailable and the report failed as well. */
  lemma FailedUpdateFailsJob(odoo: Answers, hasConfig: bool, engine: Engine, updates: nat, breaks: bool, code: int,
                             listing: Listing)
    requires odoo(0) == None && exists k :: 1 <= k <= updates && odoo(k).Some?
    ensures var body, plan := Job(hasConfig, engine), Direct(true, updates, breaks, code);
            var x, (t, e) := Execute(odoo, body, plan, listing), Attempt(odoo, body, plan, listing);
            && Odoo(WriteState(Done), None) !in x && e.Some?
            && (|| Nack in x || Odoo(WriteState(Failed), None) in x
                || (e != Some(Unavailable) && Reporting(odoo, body, t).Some?
                    && Reporting(odoo, body, t) != Some(Unavailable)))
  {
    var body, plan := Job(hasConfig, engine), Direct(true, updates, breaks, code);
    assert !GoesWell(odoo, plan, 1);
    hide AskAll, Report, Close, GoesWell, Command;
    DoneExactly(odoo, body, plan, listing);
    var (n, f) := Ask(odoo, [], WriteState(Processing));
    assert n == [Odoo(WriteState(Processing), f)] && n[1..] == [];
    CommandExactly(odoo, plan, n);
    var (t, e) := Attempt(odoo, body, plan, listing);
    NackExactly(odoo, body, plan, listing);
    if Reporting(odoo, body, t) == None {
      FailureNoted(odoo, body, t, e);
    }
  }

  lemma FailureNoted(odoo: Answers, body: Body, t: seq<Event>, e: Option<Failure>)
    requires body.Job? && e.Some? && Reporting(odoo, body, t) == None
    ensures Odoo(WriteState(Failed), None) in Handle(odoo, body, t, e.value)
  {
    hide AskAll;
    var more := AskAllAdds(odoo, t, Report(body));
    assert more[0] == Odoo(WriteState(Failed), None) && more[0] in t + more;
  }
}
