/** `_process_one` and `main` of the sidecar as they run when nothing comes between their steps. */
module SpoolDirectory {
  import opened Text
  import opened Spool

  /** Which of the steps that write the result succeed. */
  datatype Faults = Faults(opens: bool, writes: bool, renames: bool)

  class Directory {
    var files: Files

    constructor (files: Files)
      ensures this.files == files
    {
      this.files := files;
    }

    /** The handler of `_process_one`: the request is moved out of the sight of the trigger. */
    method PutAside(j: nat)
      modifies this
      ensures files == Aside(old(files), j)
    {
      if Request(j) in files {
        var request := files[Request(j)];
        files := files - {Request(j)};
        files := files[SetAside(j) := request];
      }
    }

    /** `_process_one`. */
    method ProcessOne(j: nat, faults: Faults)
      modifies this
      ensures files == Processed(old(files), j, faults)
    {
      var answer := AnswerTo(files, j);
      if !faults.opens {
        PutAside(j);
        return;
      }
      files := files[ResultTmp(j) := Partial];
      if !faults.writes {
        PutAside(j);
        return;
      }
      files := files[ResultTmp(j) := Answered(answer)];
      assert files == old(files)[ResultTmp(j) := Answered(answer)];
      if !faults.renames {
        PutAside(j);
        return;
      }
      files := (files - {ResultTmp(j)})[Result(j) := Answered(answer)];
      if Request(j) in files {
        files := files - {Request(j)};
      } else {
        PutAside(j);
      }
    }

    /** `main` for the requests that it found. */
    method ProcessAll(queue: seq<nat>, faults: nat -> Faults)
      modifies this
      ensures forall j :: j in queue ==> Request(j) !in files
      ensures forall j :: j !in queue ==>
                (Request(j) in files <==> Request(j) in old(files)) && (Result(j) in files <==> Result(j) in old(files))
      ensures forall j :: j !in queue && Request(j) in files ==> files[Request(j)] == old(files)[Request(j)]
      ensures forall j :: j !in queue && Result(j) in files ==> files[Result(j)] == old(files)[Result(j)]
    {
      hide Processed;
      for k := 0 to |queue|
        invariant forall i :: 0 <= i < k ==> Request(queue[i]) !in files
        invariant forall j :: j !in queue ==>
                    (Request(j) in files <==> Request(j) in old(files))
                    && (Result(j) in files <==> Result(j) in old(files))
        invariant forall j :: j !in queue && Request(j) in files ==> files[Request(j)] == old(files)[Request(j)]
        invariant forall j :: j !in queue && Result(j) in files ==> files[Result(j)] == old(files)[Result(j)]
      {
        ProcessedOnly(files, queue[k], faults(queue[k]));
        assert queue[k] in queue;
        ProcessOne(queue[k], faults(queue[k]));
      }
    }
  }

  function AnswerTo(files: Files, j: nat): Option<string> {
    if Request(j) in files && files[Request(j)].Asked? then Some(files[Request(j)].request) else None
  }

  function Aside(files: Files, j: nat): Files {
    if Request(j) in files then (files - {Request(j)})[SetAside(j) := files[Request(j)]] else files
  }

  /** The files after `_process_one`. */
  function Processed(files: Files, j: nat, faults: Faults): Files {
    var answer := Answered(AnswerTo(files, j));
    if !faults.opens then Aside(files, j)
    else if !faults.writes then Aside(files[ResultTmp(j) := Partial], j)
    else if !faults.renames then Aside(files[ResultTmp(j) := answer], j)
    else (files[ResultTmp(j) := answer] - {ResultTmp(j)})[Result(j) := answer] - {Request(j)}
  }

  /** Whatever fails, the request is out of the sight of the trigger, it is not lost unless its result is there, and
      no other job is touched. */
  lemma ProcessedOnly(files: Files, j: nat, faults: Faults)
    ensures var r := Processed(files, j, faults);
            && Request(j) !in r
            && (Request(j) in files && !(faults.opens && faults.writes && faults.renames) ==>
                  SetAside(j) in r && r[SetAside(j)] == files[Request(j)])
            && (faults.opens && faults.writes && faults.renames ==>
                  Result(j) in r && r[Result(j)] == Answered(AnswerTo(files, j)))
            && (forall i :: i != j ==>
                  (Request(i) in r <==> Request(i) in files) && (Result(i) in r <==> Result(i) in files))
            && (forall i :: i != j && Request(i) in r ==> r[Request(i)] == files[Request(i)])
            && (forall i :: i != j && Result(i) in r ==> r[Result(i)] == files[Result(i)])
  {
  }

  // ---- The same as the steps of the protocol ----

  ghost function SidecarAfter(s: State, events: seq<Event>): Option<State>
    decreases |events|
  {
    if events == [] then Some(s)
    else if !Enabled(s, events[0]) then None
    else SidecarAfter(SidecarNext(s, events[0]), events[1..])
  }

  /** The steps of one `_process_one` that nothing interrupts, `present` telling whether its request is there. */
  function Steps(faults: Faults, present: bool): seq<Event> {
    [Pick, OpenResult(faults.opens)]
    + (if !faults.opens then Failing(present)
       else
         [WriteResult(faults.writes)]
         + (if !faults.writes then Failing(present)
            else
              [RenameResult(faults.renames)]
              + (if !faults.renames then Failing(present)
                 else [ChangeMode, ClearRequest] + (if present then [] else [LookAgain]))))
  }

  function Failing(present: bool): seq<Event> {
    if present then [LookAgain, MoveAside] else [LookAgain]
  }

  lemma FailingSteps(s: State, j: nat)
    requires s.sidecar == Busy([j], Handling)
    ensures SidecarAfter(s, Failing(Request(j) in s.files)) ==
            Some(State(Aside(s.files, j), s.phases, Asleep, s.served + {j}))
  {
    assert [j][1..] == [];
    if Request(j) in s.files {
      var m := SidecarNext(s, LookAgain);
      assert m.sidecar == Busy([j], Moving);
      assert [LookAgain, MoveAside][1..] == [MoveAside] && [MoveAside][1..] == [];
      assert SidecarAfter(SidecarNext(m, MoveAside), []) == Some(SidecarNext(m, MoveAside));
      assert SidecarAfter(m, [MoveAside]) == Some(SidecarNext(m, MoveAside));
    } else {
      assert [LookAgain][1..] == [];
    }
  }

  lemma OneStep(s: State, e: Event, rest: seq<Event>)
    requires Enabled(s, e)
    ensures SidecarAfter(s, [e] + rest) == SidecarAfter(SidecarNext(s, e), rest)
  {
    assert ([e] + rest)[1..] == rest;
  }

  /** The files after the steps of the protocol are those after `_process_one`. */
  lemma StepsAreProcessed(s: State, j: nat, faults: Faults)
    requires s.sidecar == Busy([j], Picked)
    ensures SidecarAfter(s, Steps(faults, Request(j) in s.files)) ==
            Some(State(Processed(s.files, j, faults), s.phases, Asleep, s.served + {j}))
  {
    hide SidecarAfter, Processed, Failing, Aside;
    var present := Request(j) in s.files;
    var answer := AnswerTo(s.files, j);
    var s1 := s.(sidecar := Busy([j], Ready(answer)));
    assert SidecarNext(s, Pick) == s1;
    var rest1 :=
      if !faults.opens then Failing(present)
      else
        [WriteResult(faults.writes)]
        + (if !faults.writes then Failing(present)
           else
             [RenameResult(faults.renames)]
             + (if !faults.renames then Failing(present)
                else [ChangeMode, ClearRequest] + (if present then [] else [LookAgain])));
    assert Steps(faults, present) == [Pick] + ([OpenResult(faults.opens)] + rest1);
    OneStep(s, Pick, [OpenResult(faults.opens)] + rest1);
    OneStep(s1, OpenResult(faults.opens), rest1);
    Cases(s, j, faults);
    if !faults.opens {
      FailingSteps(s1.(sidecar := Busy([j], Handling)), j);
    } else {
      StepsOpened(s, j, faults, answer);
    }
  }

  lemma StepsOpened(s: State, j: nat, faults: Faults, answer: Option<string>)
    requires s.sidecar == Busy([j], Picked) && faults.opens && answer == AnswerTo(s.files, j)
    ensures var present := Request(j) in s.files;
            var s2 := s.(files := s.files[ResultTmp(j) := Partial], sidecar := Busy([j], Opened(answer)));
            SidecarAfter(s2, [WriteResult(faults.writes)]
                             + (if !faults.writes then Failing(present)
                                else
                                  [RenameResult(faults.renames)]
                                  + (if !faults.renames then Failing(present)
                                     else [ChangeMode, ClearRequest] + (if present then [] else [LookAgain]))))
            == Some(State(Processed(s.files, j, faults), s.phases, Asleep, s.served + {j}))
  {
    hide SidecarAfter, Processed, Failing, Aside;
    var present := Request(j) in s.files;
    var s2 := s.(files := s.files[ResultTmp(j) := Partial], sidecar := Busy([j], Opened(answer)));
    var written := s.files[ResultTmp(j) := Answered(answer)];
    assert s2.files[ResultTmp(j) := Answered(answer)] == written;
    Cases(s, j, faults);
    var rest :=
      if !faults.writes then Failing(present)
      else
        [RenameResult(faults.renames)]
        + (if !faults.renames then Failing(present)
           else [ChangeMode, ClearRequest] + (if present then [] else [LookAgain]));
    OneStep(s2, WriteResult(faults.writes), rest);
    if !faults.writes {
      FailingSteps(s2.(sidecar := Busy([j], Handling)), j);
    } else {
      var s3 := s.(files := written, sidecar := Busy([j], Complete(answer)));
      assert SidecarNext(s2, WriteResult(true)) == s3;
      var more := if !faults.renames then Failing(present)
                  else [ChangeMode, ClearRequest] + (if present then [] else [LookAgain]);
      OneStep(s3, RenameResult(faults.renames), more);
      if !faults.renames {
        FailingSteps(s3.(sidecar := Busy([j], Handling)), j);
      } else {
        StepsRenamed(s, j, answer);
      }
    }
  }

  lemma StepsRenamed(s: State, j: nat, answer: Option<string>)
    requires s.sidecar == Busy([j], Picked) && answer == AnswerTo(s.files, j)
    ensures var present := Request(j) in s.files;
            var files := (s.files[ResultTmp(j) := Answered(answer)] - {ResultTmp(j)})[Result(j) := Answered(answer)];
            SidecarAfter(s.(files := files, sidecar := Busy([j], Renamed)),
                         [ChangeMode, ClearRequest] + (if present then [] else [LookAgain]))
            == Some(State(files - {Request(j)}, s.phases, Asleep, s.served + {j}))
  {
    hide SidecarAfter;
    var files := (s.files[ResultTmp(j) := Answered(answer)] - {ResultTmp(j)})[Result(j) := Answered(answer)];
    var s4 := s.(files := files, sidecar := Busy([j], Renamed));
    var last := if Request(j) in s.files then [] else [LookAgain];
    assert [ChangeMode, ClearRequest] + last == [ChangeMode] + ([ClearRequest] + last);
    OneStep(s4, ChangeMode, [ClearRequest] + last);
    var s5 := s4.(sidecar := Busy([j], Clearing));
    OneStep(s5, ClearRequest, last);
    assert [j][1..] == [];
    if Request(j) in s.files {
      NoSteps(SidecarNext(s5, ClearRequest));
    } else {
      var s6 := s5.(sidecar := Busy([j], Handling));
      assert [LookAgain] + [] == [LookAgain];
      OneStep(s6, LookAgain, []);
      NoSteps(SidecarNext(s6, LookAgain));
      assert files - {Request(j)} == files;
    }
  }

  lemma NoSteps(s: State)
    ensures SidecarAfter(s, []) == Some(s)
  {
  }

  /** `Processed`, case by case. */
  lemma Cases(s: State, j: nat, faults: Faults)
    ensures var answer := Answered(AnswerTo(s.files, j));
            Processed(s.files, j, faults) ==
            (if !faults.opens then Aside(s.files, j)
             else if !faults.writes then Aside(s.files[ResultTmp(j) := Partial], j)
             else if !faults.renames then Aside(s.files[ResultTmp(j) := answer], j)
             else (s.files[ResultTmp(j) := answer] - {ResultTmp(j)})[Result(j) := answer] - {Request(j)})
  {
  }
}
