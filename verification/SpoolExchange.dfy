/** One backup from the request to the answer, step by step, and what it leaves in the spool directory. */
module SpoolExchange {
  import opened Text
  import opened Spool
  import opened SpoolRuns

  /** A step from one state to another. */
  ghost predicate Leads(requests: nat -> string, s: State, e: Event, r: State) {
    Enabled(s, e) && Next(requests, s, e) == r
  }

  /** A run from one state to another. */
  ghost predicate Runs(requests: nat -> string, s: State, events: seq<Event>, r: State) {
    IsRun(requests, s, events) && After(requests, s, events) == r
  }

  /** One more step before a run. */
  lemma StepFirst(requests: nat -> string, s: State, e: Event, r: State, rest: seq<Event>, end: State)
    requires Leads(requests, s, e, r) && Runs(requests, r, rest, end)
    ensures Runs(requests, s, [e] + rest, end)
  {
    hide Enabled, Next;
    assert ([e] + rest)[1..] == rest;
  }

  lemma RunOne(requests: nat -> string, s: State, e: Event, r: State)
    requires Leads(requests, s, e, r)
    ensures Runs(requests, s, [e], r)
  {
    assert Runs(requests, r, [], r) && [e] + [] == [e];
    StepFirst(requests, s, e, r, [], r);
  }

  lemma RunThree(requests: nat -> string, s: State, a: Event, t: State, b: Event, u: State, c: Event, v: State)
    requires Leads(requests, s, a, t) && Leads(requests, t, b, u) && Leads(requests, u, c, v)
    ensures IsRun(requests, s, [a, b, c]) && After(requests, s, [a, b, c]) == v
  {
    assert Runs(requests, s, [a, b, c], v) by {
      hide Leads, Runs;
      RunOne(requests, u, c, v);
      StepFirst(requests, t, b, u, [c], v);
      StepFirst(requests, s, a, t, [b] + [c], v);
      assert [a] + ([b] + [c]) == [a, b, c];
    }
  }

  lemma RunFour(requests: nat -> string, s: State, a: Event, t: State, b: Event, u: State, c: Event, v: State, d: Event,
                w: State)
    requires Leads(requests, s, a, t) && Leads(requests, t, b, u) && Leads(requests, u, c, v)
    requires Leads(requests, v, d, w)
    ensures IsRun(requests, s, [a, b, c, d]) && After(requests, s, [a, b, c, d]) == w
  {
    hide Leads, IsRun, After;
    RunThree(requests, t, b, u, c, v, d, w);
    StepFirst(requests, s, a, t, [b, c, d], w);
    assert [a] + [b, c, d] == [a, b, c, d];
  }

  // ---- The worker ----

  /** The state with one job in another phase, and other files. */
  function Moved(s: State, files: Files, j: nat, p: Phase): State {
    s.(files := files, phases := s.phases[j := p])
  }

  lemma MovedTwice(s: State, f: Files, g: Files, j: nat, p: Phase, q: Phase)
    ensures Moved(Moved(s, f, j, p), g, j, q) == Moved(s, g, j, q) && PhaseOf(Moved(s, f, j, p), j) == p
  {
    assert s.phases[j := p][j := q] == s.phases[j := q];
  }

  lemma ClearLeads(requests: nat -> string, s: State, j: nat)
    requires PhaseOf(s, j) == Idle
    ensures Leads(requests, s, Clear(j), Moved(s, s.files - {Result(j)}, j, Cleared))
  {
  }

  lemma OpenLeads(requests: nat -> string, s: State, f: Files, j: nat)
    ensures Leads(requests, Moved(s, f, j, Cleared), OpenTmp(j), Moved(s, f[RequestTmp(j) := Partial], j, Writing))
  {
    MovedTwice(s, f, f[RequestTmp(j) := Partial], j, Cleared, Writing);
  }

  lemma WriteLeads(requests: nat -> string, s: State, f: Files, j: nat)
    ensures Leads(requests, Moved(s, f[RequestTmp(j) := Partial], j, Writing), WriteTmp(j, true),
                  Moved(s, f[RequestTmp(j) := Asked(requests(j))], j, Written))
    ensures Leads(requests, Moved(s, f[RequestTmp(j) := Partial], j, Writing), WriteTmp(j, false),
                  Moved(s, f - {RequestTmp(j)}, j, Broken))
  {
    var g := f[RequestTmp(j) := Partial];
    MovedTwice(s, g, f[RequestTmp(j) := Asked(requests(j))], j, Writing, Written);
    MovedTwice(s, g, f - {RequestTmp(j)}, j, Writing, Broken);
    assert g[RequestTmp(j) := Asked(requests(j))] == f[RequestTmp(j) := Asked(requests(j))];
    assert g - {RequestTmp(j)} == f - {RequestTmp(j)};
  }

  /** The directory with the request of `j`, and no result of it. */
  function Posted(requests: nat -> string, files: Files, j: nat): Files {
    (files - {Result(j), RequestTmp(j)})[Request(j) := Asked(requests(j))]
  }

  lemma PublishLeads(requests: nat -> string, s: State, files: Files, j: nat)
    ensures Leads(requests, Moved(s, (files - {Result(j)})[RequestTmp(j) := Asked(requests(j))], j, Written),
                  Publish(j, true), Moved(s, Posted(requests, files, j), j, Waiting))
  {
    var f := (files - {Result(j)})[RequestTmp(j) := Asked(requests(j))];
    MovedTwice(s, f, Posted(requests, files, j), j, Written, Waiting);
    assert (f - {RequestTmp(j)})[Request(j) := Asked(requests(j))] == Posted(requests, files, j);
  }

  function Publishing(j: nat): seq<Event> { [Clear(j), OpenTmp(j), WriteTmp(j, true), Publish(j, true)] }

  lemma Publishes(requests: nat -> string, s: State, j: nat)
    requires PhaseOf(s, j) == Idle
    ensures IsRun(requests, s, Publishing(j))
    ensures After(requests, s, Publishing(j)) == Moved(s, Posted(requests, s.files, j), j, Waiting)
  {
    hide IsRun, After, Leads, Moved;
    var f := s.files - {Result(j)};
    ClearLeads(requests, s, j);
    OpenLeads(requests, s, f, j);
    WriteLeads(requests, s, f, j);
    PublishLeads(requests, s, s.files, j);
    RunFour(requests, s, Clear(j), Moved(s, f, j, Cleared),
            OpenTmp(j), Moved(s, f[RequestTmp(j) := Partial], j, Writing),
            WriteTmp(j, true), Moved(s, f[RequestTmp(j) := Asked(requests(j))], j, Written),
            Publish(j, true), Moved(s, Posted(requests, s.files, j), j, Waiting));
  }

  function Collecting(j: nat): seq<Event> { [ReadResult(j), RemoveResult(j), LookForRequest(j)] }

  lemma Collects(requests: nat -> string, s: State, j: nat)
    requires PhaseOf(s, j) == Waiting && Result(j) in s.files && s.files[Result(j)] == Own(requests, j)
    requires Request(j) !in s.files
    ensures IsRun(requests, s, Collecting(j))
    ensures After(requests, s, Collecting(j)) == Moved(s, s.files - {Result(j)}, j, Finished(Own(requests, j)))
  {
    hide IsRun, After;
    var own, f := Own(requests, j), s.files - {Result(j)};
    MovedTwice(s, s.files, f, j, Read(own), Emptied(own));
    MovedTwice(s, f, f, j, Emptied(own), Finished(own));
    RunThree(requests, s, ReadResult(j), Moved(s, s.files, j, Read(own)), RemoveResult(j), Moved(s, f, j, Emptied(own)),
             LookForRequest(j), Moved(s, f, j, Finished(own)));
  }

  // ---- The sidecar ----

  /** The state with the sidecar elsewhere, and other files. */
  function Turned(s: State, files: Files, sidecar: Sidecar): State { s.(files := files, sidecar := sidecar) }

  /** The sidecar asleep, and the request of `j` the only one. */
  ghost predicate OnlyRequest(requests: nat -> string, s: State, j: nat) {
    && s.sidecar == Asleep && Request(j) in s.files && s.files[Request(j)] == Asked(requests(j))
    && forall i :: Request(i) in s.files ==> i == j
  }

  function Taking(j: nat): seq<Event> { [Trigger(j), Wake([j]), Pick] }

  lemma Takes(requests: nat -> string, s: State, j: nat)
    requires OnlyRequest(requests, s, j)
    ensures IsRun(requests, s, Taking(j))
    ensures After(requests, s, Taking(j)) == Turned(s, s.files, Busy([j], Ready(Some(requests(j)))))
  {
    hide IsRun, After;
    var a, b := Turned(s, s.files, Triggered(j)), Turned(s, s.files, Busy([j], Picked));
    assert Enabled(a, Wake([j])) by { assert [j][0] == j; }
    RunThree(requests, s, Trigger(j), a, Wake([j]), b, Pick, Turned(s, s.files, Busy([j], Ready(Some(requests(j))))));
  }

  function Answering(): seq<Event> { [OpenResult(true), WriteResult(true), RenameResult(true)] }

  lemma Answers(requests: nat -> string, s: State, f: Files, j: nat, answer: Option<string>)
    ensures IsRun(requests, Turned(s, f, Busy([j], Ready(answer))), Answering())
    ensures After(requests, Turned(s, f, Busy([j], Ready(answer))), Answering()) ==
            Turned(s, (f - {ResultTmp(j)})[Result(j) := Answered(answer)], Busy([j], Renamed))
  {
    hide IsRun, After, Leads;
    var g, h := f[ResultTmp(j) := Partial], f[ResultTmp(j) := Answered(answer)];
    var r := (f - {ResultTmp(j)})[Result(j) := Answered(answer)];
    OpenResultLeads(requests, s, f, j, answer);
    WriteResultLeads(requests, s, f, j, answer);
    RenameResultLeads(requests, s, f, j, answer);
    RunThree(requests, Turned(s, f, Busy([j], Ready(answer))),
             OpenResult(true), Turned(s, g, Busy([j], Opened(answer))),
             WriteResult(true), Turned(s, h, Busy([j], Complete(answer))), RenameResult(true),
             Turned(s, r, Busy([j], Renamed)));
  }

  lemma OpenResultLeads(requests: nat -> string, s: State, f: Files, j: nat, answer: Option<string>)
    ensures Leads(requests, Turned(s, f, Busy([j], Ready(answer))), OpenResult(true),
                  Turned(s, f[ResultTmp(j) := Partial], Busy([j], Opened(answer))))
  {
  }

  lemma WriteResultLeads(requests: nat -> string, s: State, f: Files, j: nat, answer: Option<string>)
    ensures Leads(requests, Turned(s, f[ResultTmp(j) := Partial], Busy([j], Opened(answer))), WriteResult(true),
                  Turned(s, f[ResultTmp(j) := Answered(answer)], Busy([j], Complete(answer))))
  {
    assert f[ResultTmp(j) := Partial][ResultTmp(j) := Answered(answer)] == f[ResultTmp(j) := Answered(answer)];
  }

  lemma RenameResultLeads(requests: nat -> string, s: State, f: Files, j: nat, answer: Option<string>)
    ensures Leads(requests, Turned(s, f[ResultTmp(j) := Answered(answer)], Busy([j], Complete(answer))),
                  RenameResult(true),
                  Turned(s, (f - {ResultTmp(j)})[Result(j) := Answered(answer)], Busy([j], Renamed)))
  {
    assert f[ResultTmp(j) := Answered(answer)] - {ResultTmp(j)} == f - {ResultTmp(j)};
  }

  function ClearingUp(): seq<Event> { [ChangeMode, ClearRequest] }

  /** The request goes last, and the sidecar sleeps again. */
  lemma Clears(requests: nat -> string, s: State, f: Files, j: nat)
    requires Result(j) in f && Request(j) in f
    ensures IsRun(requests, Turned(s, f, Busy([j], Renamed)), ClearingUp())
    ensures After(requests, Turned(s, f, Busy([j], Renamed)), ClearingUp()) ==
            Turned(s, f - {Request(j)}, Asleep).(served := s.served + {j})
  {
    hide IsRun, After;
    assert [j][1..] == [];
    TwoSteps(requests, Turned(s, f, Busy([j], Renamed)), ChangeMode, ClearRequest, Turned(s, f, Busy([j], Clearing)),
             Turned(s, f - {Request(j)}, Asleep).(served := s.served + {j}));
  }

  // ---- The whole exchange ----

  function Exchanging(j: nat): seq<Event> {
    Publishing(j) + (Taking(j) + (Answering() + (ClearingUp() + Collecting(j))))
  }

  /** Where nothing fails and nothing comes between, a backup of whatever job, in whatever directory without other
      requests, ends with the answer to its own request, and leaves no file of its own there, not even one that was left
      over before. */
  lemma Exchange(requests: nat -> string, s: State, j: nat)
    requires PhaseOf(s, j) == Idle && s.sidecar == Asleep && forall i :: Request(i) !in s.files
    ensures IsRun(requests, s, Exchanging(j))
    ensures After(requests, s, Exchanging(j)) ==
            State(s.files - {Request(j), RequestTmp(j), Result(j), ResultTmp(j)},
                  s.phases[j := Finished(Answered(Some(requests(j))))], Asleep, s.served + {j})
  {
    hide IsRun, After;
    var answer := Some(requests(j));
    var a := Moved(s, Posted(requests, s.files, j), j, Waiting);
    Publishes(requests, s, j);
    Takes(requests, a, j);
    var b := Turned(a, a.files, Busy([j], Ready(answer)));
    Answers(requests, a, a.files, j, answer);
    var f := (a.files - {ResultTmp(j)})[Result(j) := Answered(answer)];
    var c := Turned(a, f, Busy([j], Renamed));
    Clears(requests, a, f, j);
    var d := Turned(a, f - {Request(j)}, Asleep).(served := s.served + {j});
    Collects(requests, d, j);
    RunConcat(requests, c, ClearingUp(), Collecting(j));
    RunConcat(requests, b, Answering(), ClearingUp() + Collecting(j));
    RunConcat(requests, a, Taking(j), Answering() + (ClearingUp() + Collecting(j)));
    RunConcat(requests, s, Publishing(j), Taking(j) + (Answering() + (ClearingUp() + Collecting(j))));
    assert d.files - {Result(j)} == s.files - {Request(j), RequestTmp(j), Result(j), ResultTmp(j)};
    assert s.phases[j := Waiting][j := Finished(Own(requests, j))] == s.phases[j := Finished(Own(requests, j))];
  }

  // ---- Where it fails ----

  /** A request that cannot be written leaves nothing. */
  lemma WriteFails(requests: nat -> string, s: State, j: nat)
    requires PhaseOf(s, j) == Idle
    ensures var run := [Clear(j), OpenTmp(j), WriteTmp(j, false)];
            && IsRun(requests, s, run)
            && After(requests, s, run) == Moved(s, s.files - {Result(j), RequestTmp(j)}, j, Broken)
  {
    hide IsRun, After, Leads, Moved;
    var f := s.files - {Result(j)};
    ClearLeads(requests, s, j);
    OpenLeads(requests, s, f, j);
    WriteLeads(requests, s, f, j);
    assert f - {RequestTmp(j)} == s.files - {Result(j), RequestTmp(j)};
    RunThree(requests, s, Clear(j), Moved(s, f, j, Cleared),
             OpenTmp(j), Moved(s, f[RequestTmp(j) := Partial], j, Writing),
             WriteTmp(j, false), Moved(s, f - {RequestTmp(j)}, j, Broken));
  }

  /** One that is written and cannot be published leaves its own temporary file, which the sidecar never looks at. */
  lemma PublishFails(requests: nat -> string, s: State, j: nat)
    requires PhaseOf(s, j) == Idle
    ensures var run := [Clear(j), OpenTmp(j), WriteTmp(j, true), Publish(j, false)];
            && IsRun(requests, s, run)
            && After(requests, s, run) ==
               Moved(s, (s.files - {Result(j)})[RequestTmp(j) := Asked(requests(j))], j, Broken)
  {
    hide IsRun, After;
    var f := s.files - {Result(j)};
    var g := f[RequestTmp(j) := Asked(requests(j))];
    ClearLeads(requests, s, j);
    OpenLeads(requests, s, f, j);
    WriteLeads(requests, s, f, j);
    MovedTwice(s, g, g, j, Written, Broken);
    assert Leads(requests, Moved(s, g, j, Written), Publish(j, false), Moved(s, g, j, Broken));
    hide Leads, Moved;
    RunFour(requests, s, Clear(j), Moved(s, f, j, Cleared),
            OpenTmp(j), Moved(s, f[RequestTmp(j) := Partial], j, Writing),
            WriteTmp(j, true), Moved(s, g, j, Written),
            Publish(j, false), Moved(s, g, j, Broken));
  }

  /** A request that is not answered in time is taken back. */
  lemma TakenBack(requests: nat -> string, s: State, j: nat)
    requires PhaseOf(s, j) == Idle && Request(j) !in s.files
    ensures var run := Publishing(j) + [TimeOut(j), LookForRequest(j), RemoveRequest(j)];
            && IsRun(requests, s, run)
            && After(requests, s, run) == Moved(s, s.files - {Result(j), RequestTmp(j)}, j, GaveUp)
  {
    hide IsRun, After;
    var f := Posted(requests, s.files, j);
    var g := s.files - {Result(j), RequestTmp(j)};
    Publishes(requests, s, j);
    MovedTwice(s, f, f, j, Waiting, Expired);
    MovedTwice(s, f, f, j, Expired, ExpiredDropping);
    MovedTwice(s, f, g, j, ExpiredDropping, GaveUp);
    assert f - {Request(j)} == g;
    RunThree(requests, Moved(s, f, j, Waiting), TimeOut(j), Moved(s, f, j, Expired), LookForRequest(j),
             Moved(s, f, j, ExpiredDropping), RemoveRequest(j), Moved(s, g, j, GaveUp));
    RunConcat(requests, s, Publishing(j), [TimeOut(j), LookForRequest(j), RemoveRequest(j)]);
  }
}
