/** Which calls of Odoo a job leads to, and who is told of a failure. */
module BackupReports {
  import opened Text
  import opened BackupJob

  // ---- A run in which nothing fails on the way ----

  /** Calls that went through. */
  function Log(calls: seq<Call>): seq<Event> {
    if calls == [] then [] else [Odoo(calls[0], None)] + Log(calls[1..])
  }

  /** What is seen of a command that ran to its end. */
  function Ran(plan: Plan): seq<Event> {
    match plan
    case Unprepared => []
    case Delegated(_, _, _) => [Ack, HandOver]
    case Direct(_, updates, _, _) => [Run] + Log(seq(updates, _ => AppendLog))
  }

  /** The call of Odoo that first notes how the command ended. */
  function FirstClosing(plan: Plan): nat { UpdateCount(plan) + 1 }

  /** The answer to a listing that was handed over is no text. */
  predicate ListingLost(odoo: Answers, engine: Engine, listing: Listing, first: nat) {
    engine == SyncSnapshotsOf && listing == Readable && odoo(first + 2) == Some(Undecodable)
  }

  /** The calls that follow a job that is done, by its engine. */
  function Following(odoo: Answers, engine: Engine, listing: Listing, first: nat): seq<Event> {
    if engine == Kopia || engine == Pgbackrest || engine == RestoreCmd then [Odoo(SyncSnapshots, None)]
    else if engine == RestoreDrill then [Odoo(WriteDrillTime, None)]
    else if engine == KopiaPolicy then []
    else if listing == Unreadable then [Odoo(ReportFailure, None)]
    else if ListingLost(odoo, engine, listing, first) then
      [Odoo(ProcessSnapshots, Some(Undecodable)), Odoo(ReportFailure, None)]
    else [Odoo(ProcessSnapshots, None)]
  }

  /** The calls that follow a command, by its code and the engine. */
  function Ending(odoo: Answers, engine: Engine, listing: Listing, code: int, first: nat): seq<Event> {
    if code != 0 then Log([WriteState(Failed), AppendLog, ReportFailure])
    else Log([WriteState(Done), AppendLog]) + Following(odoo, engine, listing, first)
  }

  /** All of them go through, but for a lost listing that is then reported. */
  predicate EndingWorks(odoo: Answers, engine: Engine, listing: Listing, code: int, first: nat) {
    && odoo(first) == None && odoo(first + 1) == None
    && (code != 0 || engine != KopiaPolicy ==>
          if code == 0 && ListingLost(odoo, engine, listing, first) then odoo(first + 3) == None
          else odoo(first + 2) == None)
  }

  lemma {:induction false} AskAllLog(odoo: Answers, t: seq<Event>, calls: seq<Call>)
    requires forall k :: Calls(t) <= k < Calls(t) + |calls| ==> odoo(k) == None
    ensures AskAll(odoo, t, calls) == (t + Log(calls), None) && Calls(t + Log(calls)) == Calls(t) + |calls|
    decreases |calls|
  {
    if calls == [] {
      Regroup(t, [], []);
    } else {
      var one := [Odoo(calls[0], None)];
      CallsConcat(t, one);
      assert one[1..] == [];
      AskAllLog(odoo, t + one, calls[1..]);
      Regroup(t, one, Log(calls[1..]));
    }
  }

  lemma CallOne(t: seq<Event>, e: Event)
    requires e.Odoo?
    ensures Calls(t + [e]) == Calls(t) + 1
  {
    CallsConcat(t, [e]);
    assert [e][1..] == [];
  }

  lemma ThreeCalls(odoo: Answers, t: seq<Event>, c: Call, d: Call, e: Call)
    ensures var n := Calls(t);
            && (AskAll(odoo, t, [c, d, e]).1 == None <==> odoo(n) == None && odoo(n + 1) == None && odoo(n + 2) == None)
            && (AskAll(odoo, t, [c, d, e]).1 == None ==> AskAll(odoo, t, [c, d, e]).0 == t + Log([c, d, e]))
  {
    hide AskAll;
    AskAllExactly(odoo, t, [c, d, e]);
    if odoo(Calls(t)) == None && odoo(Calls(t) + 1) == None && odoo(Calls(t) + 2) == None {
      AskAllLog(odoo, t, [c, d, e]);
    }
  }

  lemma TwoCalls(odoo: Answers, t: seq<Event>, c: Call, d: Call)
    ensures var n := Calls(t);
            && (AskAll(odoo, t, [c, d]).1 == None <==> odoo(n) == None && odoo(n + 1) == None)
            && (AskAll(odoo, t, [c, d]).1 == None ==>
                  AskAll(odoo, t, [c, d]).0 == t + Log([c, d]) && Calls(t + Log([c, d])) == n + 2)
  {
    hide AskAll;
    AskAllExactly(odoo, t, [c, d]);
    if odoo(Calls(t)) == None && odoo(Calls(t) + 1) == None {
      AskAllLog(odoo, t, [c, d]);
    }
  }

  lemma FollowUpExactly(odoo: Answers, t: seq<Event>, engine: Engine, listing: Listing, first: nat)
    requires Calls(t) == first + 2
    ensures var (u, f) := FollowUp(odoo, t, engine, listing);
            && (f == None <==>
                  (engine != KopiaPolicy ==>
                     if ListingLost(odoo, engine, listing, first) then odoo(first + 3) == None
                     else odoo(first + 2) == None))
            && (f == None ==> u == t + Following(odoo, engine, listing, first))
  {
    hide Calls;
    if ListingLost(odoo, engine, listing, first) {
      var lost, last := Odoo(ProcessSnapshots, Some(Undecodable)), Odoo(ReportFailure, odoo(first + 3));
      CallOne(t, lost);
      assert t + [lost] + [last] == t + [lost, last];
    } else if engine == KopiaPolicy {
      Regroup(t, [], []);
    }
  }

  lemma CloseTrace(odoo: Answers, t: seq<Event>, engine: Engine, listing: Listing, code: int)
    ensures var (u, f) := Close(odoo, t, engine, listing, code);
            && (f == None <==> EndingWorks(odoo, engine, listing, code, Calls(t)))
            && (f == None ==> u == t + Ending(odoo, engine, listing, code, Calls(t)))
  {
    hide AskAll, Log, FollowUp, ListingLost;
    var n := Calls(t);
    if code != 0 {
      ThreeCalls(odoo, t, WriteState(Failed), AppendLog, ReportFailure);
    } else {
      TwoCalls(odoo, t, WriteState(Done), AppendLog);
      var u := AskAll(odoo, t, [WriteState(Done), AppendLog]).0;
      if odoo(n) == None && odoo(n + 1) == None {
        FollowUpExactly(odoo, u, engine, listing, n);
        Regroup(t, Log([WriteState(Done), AppendLog]), Following(odoo, engine, listing, n));
      }
    }
  }

  lemma {:induction false} UpdatesSeq(n: nat)
    ensures Updates(n) == seq(n, _ => AppendLog)
  {
    if n > 0 {
      UpdatesSeq(n - 1);
      assert seq(n, _ => AppendLog) == [AppendLog] + seq(n - 1, _ => AppendLog);
    }
  }

  lemma CommandTrace(odoo: Answers, plan: Plan, t: seq<Event>)
    requires GoesWell(odoo, plan, Calls(t))
    ensures var (u, f, code) := Command(odoo, plan, t);
            f == None && code == Code(plan) && u == t + Ran(plan) && Calls(u) == Calls(t) + UpdateCount(plan)
  {
    hide AskAll, Updates, Log;
    match plan
    case Unprepared =>
    case Delegated(_, _, _) =>
      CallsConcat(t, [Ack, HandOver]);
      assert [Ack, HandOver][1..] == [HandOver] && [HandOver][1..] == [];
    case Direct(_, updates, _, _) =>
      CallsConcat(t, [Run]);
      assert [Run][1..] == [];
      UpdatesSeq(updates);
      AskAllLog(odoo, t + [Run], Updates(updates));
      Regroup(t, [Run], Log(Updates(updates)));
  }

  lemma Noted(odoo: Answers)
    requires odoo(0) == None
    ensures var n := [Odoo(WriteState(Processing), None)];
            Ask(odoo, [], WriteState(Processing)) == (n, None) && Calls(n) == 1
  {
    var n := [Odoo(WriteState(Processing), None)];
    assert [] + n == n && n[1..] == [];
  }

  lemma CommandFails(odoo: Answers, plan: Plan, t: seq<Event>)
    ensures Command(odoo, plan, t).1 == None <==> GoesWell(odoo, plan, Calls(t))
  {
    hide AskAll, Updates;
    if plan.Direct? {
      CallsConcat(t, [Run]);
      assert [Run][1..] == [];
      UpdatesAre(plan.updates);
      AskAllExactly(odoo, t + [Run], Updates(plan.updates));
    }
  }

  /** The attempt at a job ends well if and only if the job is noted, its command goes well, and all calls that follow
      it go through; and then this is the whole run: the note, the command, the calls by its code and its engine, and
      the acknowledgement where it was not sent before. */
  lemma WholeRun(odoo: Answers, body: Body, plan: Plan, listing: Listing)
    requires body.Job?
    ensures Attempt(odoo, body, plan, listing).1 == None <==>
            && odoo(0) == None && GoesWell(odoo, plan, 1)
            && EndingWorks(odoo, body.engine, listing, Code(plan), FirstClosing(plan))
    ensures Attempt(odoo, body, plan, listing).1 == None ==>
              Execute(odoo, body, plan, listing) ==
              [Odoo(WriteState(Processing), None)] + Ran(plan)
              + Ending(odoo, body.engine, listing, Code(plan), FirstClosing(plan))
              + if plan.Delegated? then [] else [Ack]
  {
    hide Command, Close, GoesWell, EndingWorks, Ending, Ran;
    var n := [Odoo(WriteState(Processing), None)];
    if odoo(0) == None {
      Noted(odoo);
      CommandFails(odoo, plan, n);
      if GoesWell(odoo, plan, 1) {
        CommandTrace(odoo, plan, n);
        var u := Command(odoo, plan, n).0;
        CloseTrace(odoo, u, body.engine, listing, Code(plan));
        if EndingWorks(odoo, body.engine, listing, Code(plan), FirstClosing(plan)) {
          var e := Ending(odoo, body.engine, listing, Code(plan), FirstClosing(plan));
          assert !plan.Unprepared? by { Prepared(odoo, plan); }
          RunAcks(odoo, plan, body.engine, listing);
          var v := n + Ran(plan) + e;
          assert Ack in v <==> plan.Delegated?;
          Regroup(v, [], []);
        }
      }
    } else {
      assert Ask(odoo, [], WriteState(Processing)).1.Some? by { assert Calls([]) == 0; }
    }
  }

  lemma {:induction false} LogOnlyCalls(calls: seq<Call>)
    ensures OnlyCalls(Log(calls)) && |Log(calls)| == |calls|
    ensures forall c, f :: Odoo(c, f) in Log(calls) <==> c in calls && f == None
  {
    if calls != [] {
      LogOnlyCalls(calls[1..]);
    }
  }

  lemma Prepared(odoo: Answers, plan: Plan)
    requires GoesWell(odoo, plan, 1)
    ensures !plan.Unprepared?
  {
  }

  lemma RunAcks(odoo: Answers, plan: Plan, engine: Engine, listing: Listing)
    requires !plan.Unprepared?
    ensures var v := [Odoo(WriteState(Processing), None)] + Ran(plan)
                     + Ending(odoo, engine, listing, Code(plan), FirstClosing(plan));
            (Ack in v <==> plan.Delegated?) && Nack !in v
  {
    hide Log;
    EndingCalls(odoo, engine, listing, Code(plan), FirstClosing(plan));
    if plan.Direct? {
      LogOnlyCalls(seq(plan.updates, _ => AppendLog));
    }
  }

  lemma EndingCalls(odoo: Answers, engine: Engine, listing: Listing, code: int, first: nat)
    ensures OnlyCalls(Ending(odoo, engine, listing, code, first))
  {
    hide Log;
    LogOnlyCalls([WriteState(Failed), AppendLog, ReportFailure]);
    LogOnlyCalls([WriteState(Done), AppendLog]);
  }

  // ---- Who is told ----

  /** A call that comes last wherever it comes. */
  predicate IsLast(c: Call) { !c.WriteState? && c != AppendLog }

  lemma AskAllLast(odoo: Answers, t: seq<Event>, calls: seq<Call>, c: Call)
    requires IsLast(c) && forall k :: 0 <= k < |calls| - 1 ==> calls[k] != c
    requires AskAll(odoo, t, calls).1.Some? && Odoo(c, None) !in t
    ensures Odoo(c, None) !in AskAll(odoo, t, calls).0
  {
    hide AskAll;
    var more := AskAllAdds(odoo, t, calls);
    forall k | 0 <= k < |more| ensures more[k] != Odoo(c, None) {
      if k < |calls| - 1 {
        assert more[k].call == calls[k];
      } else {
        assert k == |more| - 1;
      }
    }
  }

  lemma CloseLast(odoo: Answers, t: seq<Event>, engine: Engine, listing: Listing, code: int, c: Call)
    requires IsLast(c) && Odoo(c, None) !in t && Close(odoo, t, engine, listing, code).1.Some?
    ensures Odoo(c, None) !in Close(odoo, t, engine, listing, code).0
  {
    hide AskAll, FollowUp;
    if code != 0 {
      AskAllLast(odoo, t, [WriteState(Failed), AppendLog, ReportFailure], c);
    } else {
      var (u, f) := AskAll(odoo, t, [WriteState(Done), AppendLog]);
      if f.Some? {
        AskAllLast(odoo, t, [WriteState(Done), AppendLog], c);
      } else {
        var more := AskAllAdds(odoo, t, [WriteState(Done), AppendLog]);
        assert Odoo(c, None) !in u;
        FollowLast(odoo, u, engine, listing, c);
      }
    }
  }

  lemma FollowLast(odoo: Answers, t: seq<Event>, engine: Engine, listing: Listing, c: Call)
    requires Odoo(c, None) !in t && FollowUp(odoo, t, engine, listing).1.Some?
    ensures Odoo(c, None) !in FollowUp(odoo, t, engine, listing).0
  {
    hide Calls;
  }

  lemma CommandLast(odoo: Answers, plan: Plan, t: seq<Event>, c: Call)
    requires IsLast(c) && Odoo(c, None) !in t
    ensures Odoo(c, None) !in Command(odoo, plan, t).0
  {
    hide AskAll, Updates;
    if plan.Direct? {
      var more := AskAllAdds(odoo, t + [Run], Updates(plan.updates));
      UpdatesAre(plan.updates);
      forall k | 0 <= k < |more| ensures more[k] != Odoo(c, None) {
        assert more[k].call == Updates(plan.updates)[k] && Updates(plan.updates)[k] in Updates(plan.updates);
      }
    }
  }

  /** An attempt that failed got through to none of them. */
  lemma AttemptLast(odoo: Answers, body: Body, plan: Plan, listing: Listing, c: Call)
    requires body.Job? && IsLast(c) && Attempt(odoo, body, plan, listing).1.Some?
    ensures Odoo(c, None) !in Attempt(odoo, body, plan, listing).0
  {
    hide Command, Close;
    var (n, f) := Ask(odoo, [], WriteState(Processing));
    assert n == [Odoo(WriteState(Processing), f)];
    if f == None {
      CommandLast(odoo, plan, n, c);
      var (u, g, code) := Command(odoo, plan, n);
      if g == None {
        CloseLast(odoo, u, body.engine, listing, code, c);
      }
    }
  }

  /** What the handler tells. */
  lemma HandlerTells(odoo: Answers, body: Body, t: seq<Event>, e: Failure, c: Call)
    requires body.Job? && IsLast(c) && Odoo(c, None) !in t
    ensures Odoo(c, None) in Handle(odoo, body, t, e) <==>
            && c == ReportFailure && body.hasConfig
            && odoo(Calls(t)) == None && odoo(Calls(t) + 1) == None && odoo(Calls(t) + 2) == None
  {
    hide AskAll;
    var calls := Report(body);
    var more := AskAllAdds(odoo, t, calls);
    AskAllExactly(odoo, t, calls);
    var n := Calls(t);
    if body.hasConfig {
      assert calls == [WriteState(Failed), AppendLog, ReportFailure];
      if AskAll(odoo, t, calls).1.Some? {
        AskAllLast(odoo, t, calls, c);
      } else {
        assert more[2] == Odoo(ReportFailure, None) && more[2] in more;
        assert odoo(n) == None && odoo(n + 1) == None && odoo(n + 2) == None;
      }
    } else {
      assert calls == [WriteState(Failed), AppendLog];
    }
  }

  /** A failure of the command, or of its listing, is reported to the configuration of the job if and only if all
      calls up to the report went through; a failure of anything else, if and only if the job has a configuration and
      the three calls of the handler went through. */
  lemma ReportExactly(odoo: Answers, body: Body, plan: Plan, listing: Listing)
    requires body.Job?
    ensures var (t, e) := Attempt(odoo, body, plan, listing);
            Odoo(ReportFailure, None) in Execute(odoo, body, plan, listing) <==>
            if e == None then
              || Code(plan) != 0
              || (body.engine == SyncSnapshotsOf && listing == Unreadable)
              || ListingLost(odoo, body.engine, listing, FirstClosing(plan))
            else
              && body.hasConfig
              && odoo(Calls(t)) == None && odoo(Calls(t) + 1) == None && odoo(Calls(t) + 2) == None
  {
    hide Attempt, Handle, GoesWell, EndingWorks, Ending, Ran, ListingLost;
    var (t, e) := Attempt(odoo, body, plan, listing);
    if e == None {
      WholeRun(odoo, body, plan, listing);
      RunHolds(odoo, plan, body.engine, listing, ReportFailure);
    } else {
      AttemptLast(odoo, body, plan, listing, ReportFailure);
      HandlerTells(odoo, body, t, e.value, ReportFailure);
    }
  }

  /** Each other call of Odoo goes through if and only if the job is done, all calls of its attempt went through, and
      its engine is one that it belongs to. */
  lemma FollowUpsExactly(odoo: Answers, body: Body, plan: Plan, listing: Listing)
    requires body.Job?
    ensures var done := Attempt(odoo, body, plan, listing).1 == None && Code(plan) == 0;
            var x := Execute(odoo, body, plan, listing);
            && (Odoo(SyncSnapshots, None) in x <==>
                  done && (body.engine == Kopia || body.engine == Pgbackrest || body.engine == RestoreCmd))
            && (Odoo(WriteDrillTime, None) in x <==> done && body.engine == RestoreDrill)
            && (Odoo(ProcessSnapshots, None) in x <==>
                  && done && body.engine == SyncSnapshotsOf && listing == Readable
                  && !ListingLost(odoo, body.engine, listing, FirstClosing(plan)))
  {
    FollowsExactly(odoo, body, plan, listing, SyncSnapshots);
    FollowsExactly(odoo, body, plan, listing, WriteDrillTime);
    FollowsExactly(odoo, body, plan, listing, ProcessSnapshots);
    hide Attempt, Handle, GoesWell, EndingWorks, Ran, ListingLost, Execute;
  }

  lemma FollowsExactly(odoo: Answers, body: Body, plan: Plan, listing: Listing, c: Call)
    requires body.Job? && IsLast(c) && c != ReportFailure
    ensures Odoo(c, None) in Execute(odoo, body, plan, listing) <==>
            && Attempt(odoo, body, plan, listing).1 == None && Code(plan) == 0
            && Odoo(c, None) in Following(odoo, body.engine, listing, FirstClosing(plan))
  {
    hide Attempt, Handle, GoesWell, EndingWorks, Ending, Ran, ListingLost, Following;
    var (t, e) := Attempt(odoo, body, plan, listing);
    if e == None {
      WholeRun(odoo, body, plan, listing);
      RunHolds(odoo, plan, body.engine, listing, c);
    } else {
      AttemptLast(odoo, body, plan, listing, c);
      HandlerTells(odoo, body, t, e.value, c);
    }
  }

  /** Which of these calls are in a whole run. */
  lemma RunHolds(odoo: Answers, plan: Plan, engine: Engine, listing: Listing, c: Call)
    requires IsLast(c)
    ensures var first, code := FirstClosing(plan), Code(plan);
            var x := [Odoo(WriteState(Processing), None)] + Ran(plan) + Ending(odoo, engine, listing, code, first)
                     + if plan.Delegated? then [] else [Ack];
            Odoo(c, None) in x <==>
            if code != 0 then c == ReportFailure else Odoo(c, None) in Following(odoo, engine, listing, first)
    ensures Odoo(ReportFailure, None) in Following(odoo, engine, listing, FirstClosing(plan)) <==>
            || (engine == SyncSnapshotsOf && listing == Unreadable)
            || ListingLost(odoo, engine, listing, FirstClosing(plan))
  {
    hide Log;
    LogOnlyCalls([WriteState(Failed), AppendLog, ReportFailure]);
    LogOnlyCalls([WriteState(Done), AppendLog]);
    assert Odoo(c, None) !in Ran(plan) by {
      if plan.Direct? {
        LogOnlyCalls(seq(plan.updates, _ => AppendLog));
      }
    }
    hide Ran, Following;
    FollowingReports(odoo, engine, listing, FirstClosing(plan));
  }

  lemma FollowingReports(odoo: Answers, engine: Engine, listing: Listing, first: nat)
    ensures Odoo(ReportFailure, None) in Following(odoo, engine, listing, first) <==>
            (engine == SyncSnapshotsOf && listing == Unreadable) || ListingLost(odoo, engine, listing, first)
  {
  }
}
