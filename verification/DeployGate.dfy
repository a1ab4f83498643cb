/**
The deploy gate: may a commit be deployed, judged from the push runs GitHub lists for it and their jobs.
*/
module DeployGate {
  import opened Wrappers

  type Pair = (string, string)   // workflow file, job

  datatype Run = Run(headSha: string, workflow: string, id: int, status: string)

  datatype Job = Job(name: string, status: string, conclusion: Option<string>)

  datatype Unreachable = Unreachable

  /** What GitHub answers: the runs of a commit, the jobs of a run. */
  datatype Api = Api(runs: string -> Result<seq<Run>, Unreachable>, jobs: int -> Result<seq<Job>, Unreachable>)

  datatype Verdict = Fail | Pending | Pass

  const BAD := {"failure", "cancelled", "timed_out", "action_required", "startup_failure", "stale"}
  const CANDIDATES := 3

  // ---- reading the answers ----

  /** The run of a workflow with the highest id, the first of several. */
  function Latest(runs: seq<Run>, sha: string, wf: string): Option<Run> {
    if runs == [] then None
    else
      var best, last := Latest(runs[..|runs| - 1], sha, wf), runs[|runs| - 1];
      if last.headSha == sha && last.workflow == wf && (best.None? || last.id > best.value.id) then Some(last) else best
  }

  /** A job by name; of several with one name the last is kept. */
  function Named(jobs: seq<Job>, name: string): Option<Job> {
    if jobs == [] then None
    else if jobs[|jobs| - 1].name == name then Some(jobs[|jobs| - 1])
    else Named(jobs[..|jobs| - 1], name)
  }

  function Workflows(required: seq<Pair>): set<string> { set p | p in required :: p.0 }

  /** The answers one evaluation reads, for the workflows it reads them for. */
  datatype Answers = Answers(runs: map<string, Run>, jobs: map<string, seq<Job>>) {
    predicate Completed(wf: string) { wf in runs && runs[wf].status == "completed" }

    function JobOf(wf: string, name: string): Option<Job> {
      if wf in jobs then Named(jobs[wf], name) else None
    }
  }

  predicate Done(j: Option<Job>) { j.Some? && j.value.status == "completed" }

  predicate Succeeded(j: Option<Job>) { Done(j) && j.value.conclusion == Some("success") }

  predicate IsBad(j: Option<Job>) { Done(j) && j.value.conclusion.Some? && j.value.conclusion.value in BAD }

  // ---- what counts against a commit ----

  datatype Finding =
    | DidNotRun(wf: string, job: string)
    | NotSuccess(wf: string, job: string)
    | BadOther(wf: string, job: string)
    | RunRunning(wf: string)
    | RequiredRunning(wf: string, job: string)
    | OtherRunning(wf: string, job: string)

  predicate IsProblem(a: Answers, required: seq<Pair>, red: seq<Pair>, f: Finding) {
    match f
    case DidNotRun(wf, job) => (wf, job) in required && a.JobOf(wf, job).None? && a.Completed(wf)
    case NotSuccess(wf, job) => (wf, job) in required && Done(a.JobOf(wf, job)) && !Succeeded(a.JobOf(wf, job))
    case BadOther(wf, job) =>
      wf in Workflows(required) && (wf, job) !in required && IsBad(a.JobOf(wf, job)) && (wf, job) !in red
    case _ => false
  }

  predicate IsPending(a: Answers, required: seq<Pair>, red: seq<Pair>, f: Finding) {
    match f
    case RunRunning(wf) => wf in Workflows(required) && !a.Completed(wf)
    case RequiredRunning(wf, job) =>
      (wf, job) in required && a.JobOf(wf, job).Some? && !Done(a.JobOf(wf, job)) && a.Completed(wf)
    case OtherRunning(wf, job) =>
      wf in Workflows(required) && (wf, job) !in required && a.JobOf(wf, job).Some? && !Done(a.JobOf(wf, job))
      && (wf, job) !in red && a.Completed(wf)
    case _ => false
  }

  ghost predicate AnyProblem(a: Answers, required: seq<Pair>, red: seq<Pair>) {
    exists f :: IsProblem(a, required, red, f)
  }

  ghost predicate AnyPending(a: Answers, required: seq<Pair>, red: seq<Pair>) {
    exists f :: IsPending(a, required, red, f)
  }

  /** Every required workflow has a run. */
  predicate AllThere(a: Answers, required: seq<Pair>) { Workflows(required) <= a.runs.Keys }

  ghost function Judge(a: Answers, required: seq<Pair>, red: seq<Pair>): Verdict {
    if !AllThere(a, required) || AnyProblem(a, required, red) then Fail
    else if AnyPending(a, required, red) then Pending
    else Pass
  }

  // ---- the verdict, in the words of the module documentation ----

  /** A job that has ended badly: not one that was skipped or says nothing. */
  predicate EndedBadly(j: Option<Job>) {
    && j.Some? && j.value.status == "completed" && j.value.conclusion.Some?
    && var c := j.value.conclusion.value;
    || c == "failure" || c == "cancelled" || c == "timed_out" || c == "action_required" || c == "startup_failure"
    || c == "stale"
  }

  lemma BadlyIs(j: Option<Job>)
    ensures EndedBadly(j) <==> IsBad(j)
  {}

  lemma BadlyAre()
    ensures forall j :: EndedBadly(j) <==> IsBad(j)
  {
    forall j
      ensures EndedBadly(j) <==> IsBad(j)
    {
      BadlyIs(j);
    }
  }

  ghost predicate Passed(a: Answers, required: seq<Pair>, red: seq<Pair>) {
    && (forall wf | wf in Workflows(required) :: a.Completed(wf))
    && (forall p | p in required :: Succeeded(a.JobOf(p.0, p.1)))
    && (forall wf, name | wf in Workflows(required) && a.JobOf(wf, name).Some? && (wf, name) !in required ::
          (wf, name) in red || (Done(a.JobOf(wf, name)) && !EndedBadly(a.JobOf(wf, name))))
  }

  lemma PassExactly(a: Answers, required: seq<Pair>, red: seq<Pair>)
    ensures Judge(a, required, red) == Pass <==> Passed(a, required, red)
  {
    if Judge(a, required, red) == Pass {
      forall wf | wf in Workflows(required)
        ensures a.Completed(wf)
      {
        assert !IsPending(a, required, red, RunRunning(wf));
      }
      forall p | p in required
        ensures Succeeded(a.JobOf(p.0, p.1))
      {
        assert !IsProblem(a, required, red, DidNotRun(p.0, p.1));
        assert !IsProblem(a, required, red, NotSuccess(p.0, p.1));
        assert !IsPending(a, required, red, RequiredRunning(p.0, p.1));
      }
      forall wf, name | wf in Workflows(required) && a.JobOf(wf, name).Some? && (wf, name) !in required
        ensures (wf, name) in red || (Done(a.JobOf(wf, name)) && !IsBad(a.JobOf(wf, name)))
      {
        assert !IsProblem(a, required, red, BadOther(wf, name));
        assert !IsPending(a, required, red, OtherRunning(wf, name));
      }
    }
    if Passed(a, required, red) {
      forall f
        ensures !IsProblem(a, required, red, f) && !IsPending(a, required, red, f)
      {
        if f.DidNotRun? || f.NotSuccess? || f.RequiredRunning? {
          assert (f.wf, f.job) in required ==> Succeeded(a.JobOf((f.wf, f.job).0, (f.wf, f.job).1));
        }
      }
    }
  }

  /**
  A required workflow without a run, a required job missing or not a success, or another job bad and not known red.
  */
  ghost predicate Failed(a: Answers, required: seq<Pair>, red: seq<Pair>) {
    || (exists p | p in required :: p.0 !in a.runs)
    || (exists p | p in required :: a.JobOf(p.0, p.1).None? && a.Completed(p.0))
    || (exists p | p in required :: Done(a.JobOf(p.0, p.1)) && !Succeeded(a.JobOf(p.0, p.1)))
    || (exists p, name | p in required ::
          (p.0, name) !in required && (p.0, name) !in red && EndedBadly(a.JobOf(p.0, name)))
  }

  /** A run, a required job or another job that is not known red is still under way. */
  ghost predicate Waiting(a: Answers, required: seq<Pair>, red: seq<Pair>) {
    || (exists p | p in required :: !a.Completed(p.0))
    || (exists p | p in required :: a.JobOf(p.0, p.1).Some? && !Done(a.JobOf(p.0, p.1)))
    || (exists p, name | p in required ::
          (p.0, name) !in red && a.JobOf(p.0, name).Some? && !Done(a.JobOf(p.0, name)))
  }

  /** The verdict is Fail when something is wrong, and Pending when nothing is and something is under way. */
  lemma FailExactly(a: Answers, required: seq<Pair>, red: seq<Pair>)
    ensures Judge(a, required, red) == Fail <==> Failed(a, required, red)
    ensures Judge(a, required, red) == Pending <==> !Failed(a, required, red) && Waiting(a, required, red)
  {
    FailedIs(a, required, red);
    hide Failed;
    if AllThere(a, required) && !AnyProblem(a, required, red) {
      WaitingIs(a, required, red);
    }
  }

  lemma WorkflowOf(required: seq<Pair>, wf: string)
    ensures wf in Workflows(required) <==> exists p | p in required :: p.0 == wf
  {}

  lemma FailedIs(a: Answers, required: seq<Pair>, red: seq<Pair>)
    ensures Failed(a, required, red) <==> !AllThere(a, required) || AnyProblem(a, required, red)
  {
    hide EndedBadly;
    hide IsBad;
    hide Answers.JobOf;
    BadlyAre();
    if f :| IsProblem(a, required, red, f) {
      if f.BadOther? {
        WorkflowOf(required, f.wf);
      } else {
        assert (f.wf, f.job) in required;
      }
    }
    forall p | p in required
      ensures p.0 in Workflows(required)
    {
      WorkflowOf(required, p.0);
    }
    if !AllThere(a, required) {
      var wf :| wf in Workflows(required) && wf !in a.runs;
      WorkflowOf(required, wf);
    }
    if p :| p in required && a.JobOf(p.0, p.1).None? && a.Completed(p.0) {
      assert IsProblem(a, required, red, DidNotRun(p.0, p.1));
    }
    if p :| p in required && Done(a.JobOf(p.0, p.1)) && !Succeeded(a.JobOf(p.0, p.1)) {
      assert IsProblem(a, required, red, NotSuccess(p.0, p.1));
    }
    if p, name :| p in required && (p.0, name) !in required && (p.0, name) !in red && IsBad(a.JobOf(p.0, name)) {
      assert IsProblem(a, required, red, BadOther(p.0, name));
    }
  }

  lemma WaitingIs(a: Answers, required: seq<Pair>, red: seq<Pair>)
    requires AllThere(a, required) && !AnyProblem(a, required, red)
    ensures Waiting(a, required, red) <==> AnyPending(a, required, red)
  {
    forall p | p in required
      ensures p.0 in Workflows(required)
    {
      WorkflowOf(required, p.0);
    }
    if f :| IsPending(a, required, red, f) {
      if f.RequiredRunning? {
        assert (f.wf, f.job) in required;
      } else {
        WorkflowOf(required, f.wf);
      }
    }
    if p :| p in required && !a.Completed(p.0) {
      assert IsPending(a, required, red, RunRunning(p.0));
    } else if p :| p in required && a.JobOf(p.0, p.1).Some? && !Done(a.JobOf(p.0, p.1)) {
      assert IsPending(a, required, red, RequiredRunning(p.0, p.1));
    } else if p, name :| p in required && (p.0, name) !in red && a.JobOf(p.0, name).Some? && !Done(a.JobOf(p.0, name)) {
      assert (p.0, name) in required || IsPending(a, required, red, OtherRunning(p.0, name));
    }
  }

  function Rank(v: Verdict): nat {
    match v case Fail => 0 case Pending => 1 case Pass => 2
  }

  /** Tolerating more known-red jobs never lowers the verdict. */
  lemma MoreKnownRed(a: Answers, required: seq<Pair>, red: seq<Pair>, more: seq<Pair>)
    requires forall p | p in red :: p in more
    ensures Rank(Judge(a, required, red)) <= Rank(Judge(a, required, more))
  {
    forall f
      ensures IsProblem(a, required, more, f) ==> IsProblem(a, required, red, f)
      ensures IsPending(a, required, more, f) ==> IsPending(a, required, red, f)
    {}
  }

  /** What becomes of a finding once more jobs are required: the same fact, counted under the stricter rule. */
  function Tightened(required: seq<Pair>, a: Answers, f: Finding): Finding {
    match f
    case BadOther(wf, job) => if (wf, job) in required then NotSuccess(wf, job) else f
    case OtherRunning(wf, job) => if (wf, job) in required then RequiredRunning(wf, job) else f
    case _ => f
  }

  /** On the same answers, requiring more never raises the verdict. */
  lemma StricterOnAnswers(a: Answers, required: seq<Pair>, more: seq<Pair>, red: seq<Pair>)
    requires forall p | p in required :: p in more
    ensures Rank(Judge(a, more, red)) <= Rank(Judge(a, required, red))
  {
    assert Workflows(required) <= Workflows(more);
    if f :| IsProblem(a, required, red, f) {
      assert IsProblem(a, more, red, Tightened(more, a, f));
    }
    if f :| IsPending(a, required, red, f) {
      assert IsPending(a, more, red, Tightened(more, a, f));
    }
  }

  /** Nothing required: nothing is looked at, and every commit passes. */
  lemma NothingRequired(a: Answers, red: seq<Pair>)
    ensures Judge(a, [], red) == Pass
  {
    assert Workflows([]) == {};
  }

  // ---- the program ----

  lemma {:induction false} LatestIs(runs: seq<Run>, sha: string, wf: string)
    ensures Latest(runs, sha, wf).None? <==> forall r | r in runs :: r.headSha != sha || r.workflow != wf
    ensures Latest(runs, sha, wf).Some? ==>
              && Latest(runs, sha, wf).value in runs
              && Latest(runs, sha, wf).value.headSha == sha && Latest(runs, sha, wf).value.workflow == wf
              && forall r | r in runs && r.headSha == sha && r.workflow == wf :: r.id <= Latest(runs, sha, wf).value.id
  {
    if runs != [] {
      LatestIs(runs[..|runs| - 1], sha, wf);
      assert runs == runs[..|runs| - 1] + [runs[|runs| - 1]];
    }
  }

  /** The newest run of each required workflow. */
  ghost predicate IsLatest(runs: seq<Run>, sha: string, workflows: set<string>, best: map<string, Run>) {
    && (forall wf :: wf in best <==> wf in workflows && Latest(runs, sha, wf).Some?)
    && (forall wf | wf in best :: best[wf] == Latest(runs, sha, wf).value)
  }

  method LatestRuns(api: Api, sha: string, workflows: set<string>) returns (best: Result<map<string, Run>, Unreachable>)
    ensures best.Failure? <==> api.runs(sha).Failure?
    ensures best.Success? ==> IsLatest(api.runs(sha).value, sha, workflows, best.value)
  {
    var answer := api.runs(sha);
    if answer.Failure? {
      return Failure(answer.error);
    }
    var runs, found := answer.value, map[];
    for i := 0 to |runs|
      invariant IsLatest(runs[..i], sha, workflows, found)
    {
      assert runs[..i + 1][..i] == runs[..i];
      var run := runs[i];
      if run.headSha != sha {
        continue;
      }
      if run.workflow !in workflows {
        continue;
      }
      if run.workflow !in found || run.id > found[run.workflow].id {
        found := found[run.workflow := run];
      }
    }
    assert runs[..|runs|] == runs;
    best := Success(found);
  }

  /** GitHub answered everything the evaluation asks: the jobs are only asked for when no run is missing. */
  predicate Reachable(api: Api, sha: string, required: seq<Pair>) {
    && api.runs(sha).Success?
    && ((forall wf | wf in Workflows(required) :: Latest(api.runs(sha).value, sha, wf).Some?)
        ==> forall wf | wf in Workflows(required) :: api.jobs(Latest(api.runs(sha).value, sha, wf).value.id).Success?)
  }

  function AnswersOf(api: Api, sha: string, required: seq<Pair>): Answers
    requires Reachable(api, sha, required)
  {
    var list := api.runs(sha).value;
    var runs := map wf | wf in Workflows(required) && Latest(list, sha, wf).Some? :: Latest(list, sha, wf).value;
    Answers(runs, map wf | wf in runs && api.jobs(runs[wf].id).Success? :: api.jobs(runs[wf].id).value)
  }

  method JobsByName(jobs: seq<Job>) returns (byName: map<string, Job>)
    ensures forall n :: n in byName <==> Named(jobs, n).Some?
    ensures forall n | n in byName :: Named(jobs, n) == Some(byName[n])
  {
    byName := map[];
    for i := 0 to |jobs|
      invariant forall n :: n in byName <==> Named(jobs[..i], n).Some?
      invariant forall n | n in byName :: Named(jobs[..i], n) == Some(byName[n])
    {
      assert jobs[..i + 1][..i] == jobs[..i];
      byName := byName[jobs[i].name := jobs[i]];
    }
    assert jobs[..|jobs|] == jobs;
  }

  /** The findings of one workflow are exactly its own. */
  ghost predicate Covers(a: Answers, required: seq<Pair>, red: seq<Pair>, wfs: set<string>, problems: seq<Finding>,
                         pending: seq<Finding>)
  {
    && (forall f :: f in problems <==> f.wf in wfs && IsProblem(a, required, red, f))
    && (forall f :: f in pending <==> IsPending(a, required, red, f) && (f.RunRunning? || f.wf in wfs))
  }

  method JudgeRequired(ghost a: Answers, required: seq<Pair>, ghost red: seq<Pair>, wf: string, run: Run,
                       byName: map<string, Job>)
    returns (problems: seq<Finding>, pending: seq<Finding>)
    requires wf in a.runs && a.runs[wf] == run
             && forall n :: a.JobOf(wf, n) == if n in byName then Some(byName[n]) else None
    ensures forall f :: f in problems <==> f.wf == wf && !f.BadOther? && IsProblem(a, required, red, f)
    ensures forall f :: f in pending <==> f.wf == wf && f.RequiredRunning? && IsPending(a, required, red, f)
  {
    problems, pending := [], [];
    for i := 0 to |required|
      invariant forall f :: f in problems <==> f.wf == wf && !f.BadOther? && IsProblem(a, required[..i], red, f)
      invariant forall f :: f in pending <==> f.wf == wf && f.RequiredRunning? && IsPending(a, required[..i], red, f)
    {
      assert forall p :: p in required[..i + 1] <==> p in required[..i] || p == required[i];
      var job := required[i].1;
      if required[i].0 != wf {
        continue;
      }
      if job !in byName {
        if run.status == "completed" {
          problems := problems + [DidNotRun(wf, job)];
        }
      } else if byName[job].status != "completed" {
        if run.status == "completed" {
          pending := pending + [RequiredRunning(wf, job)];
        }
      } else if byName[job].conclusion != Some("success") {
        problems := problems + [NotSuccess(wf, job)];
      }
    }
    assert required[..|required|] == required;
  }

  method JudgeOthers(ghost a: Answers, required: seq<Pair>, red: seq<Pair>, wf: string, run: Run,
                     byName: map<string, Job>)
    returns (problems: seq<Finding>, pending: seq<Finding>)
    requires wf in a.runs && a.runs[wf] == run && wf in Workflows(required)
    requires forall n :: a.JobOf(wf, n) == if n in byName then Some(byName[n]) else None
    ensures forall f :: f in problems <==> f.wf == wf && f.BadOther? && IsProblem(a, required, red, f)
    ensures forall f :: f in pending <==> f.wf == wf && f.OtherRunning? && IsPending(a, required, red, f)
  {
    problems, pending := [], [];
    var names := byName.Keys;
    while names != {}
      invariant names <= byName.Keys
      invariant forall f ::
                  f in problems <==> f.wf == wf && f.BadOther? && IsProblem(a, required, red, f) && f.job !in names
      invariant forall f ::
                  f in pending <==> f.wf == wf && f.OtherRunning? && IsPending(a, required, red, f) && f.job !in names
      decreases names
    {
      var name :| name in names;
      names := names - {name};
      var j := byName[name];
      if (wf, name) in required {
        continue;
      }
      if j.status == "completed" && j.conclusion.Some? && j.conclusion.value in BAD {
        if (wf, name) !in red {
          problems := problems + [BadOther(wf, name)];
        }
      } else if j.status != "completed" && (wf, name) !in red && run.status == "completed" {
        pending := pending + [OtherRunning(wf, name)];
      }
    }
  }

  /** The loop over the workflows, once every run is there. */
  method JudgeAll(api: Api, required: seq<Pair>, red: seq<Pair>, runs: map<string, Run>, ghost a: Answers)
    returns (r: Result<Verdict, Unreachable>)
    requires a.runs == runs && AllThere(a, required)
    requires forall wf :: wf in a.jobs <==> wf in runs && api.jobs(runs[wf].id).Success?
    requires forall wf | wf in a.jobs :: a.jobs[wf] == api.jobs(runs[wf].id).value
    ensures r.Success? <==> forall wf | wf in Workflows(required) :: api.jobs(runs[wf].id).Success?
    ensures r.Success? ==> r.value == Judge(a, required, red)
  {
    var workflows := Workflows(required);
    var problems: seq<Finding> := [];
    var pending := Running(workflows, runs);
    assert forall f :: f in pending <==> f.RunRunning? && IsPending(a, required, red, f);
    var rest := workflows;
    assert Covers(a, required, red, workflows - rest, problems, pending);
    hide Covers;
    hide IsProblem;
    hide IsPending;
    while rest != {}
      invariant rest <= workflows
      invariant forall wf | wf in workflows - rest :: api.jobs(runs[wf].id).Success?
      invariant Covers(a, required, red, workflows - rest, problems, pending)
      decreases rest
    {
      var wf :| wf in rest;
      var answer := api.jobs(runs[wf].id);
      if answer.Failure? {
        return Failure(answer.error);
      }
      var byName := JobsByName(answer.value);
      var p1, q1 := JudgeRequired(a, required, red, wf, runs[wf], byName);
      var p2, q2 := JudgeOthers(a, required, red, wf, runs[wf], byName);
      CoversMore(a, required, red, workflows - rest, wf, problems, pending, p1, q1, p2, q2);
      problems, pending := problems + p1 + p2, pending + q1 + q2;
      assert workflows - (rest - {wf}) == (workflows - rest) + {wf};
      rest := rest - {wf};
    }
    assert workflows - {} == workflows;
    CoversAll(a, required, red, workflows, problems, pending);
    r := Success(if problems != [] then Fail else if pending != [] then Pending else Pass);
  }

  method Evaluate(api: Api, sha: string, required: seq<Pair>, red: seq<Pair>) returns (r: Result<Verdict, Unreachable>)
    ensures r.Success? <==> Reachable(api, sha, required)
    ensures r.Success? ==> r.value == Judge(AnswersOf(api, sha, required), required, red)
  {
    hide Judge;
    var latest := LatestRuns(api, sha, Workflows(required));
    if latest.Failure? {
      return Failure(latest.error);
    }
    var runs := latest.value;
    ghost var a := Answers(runs, map wf | wf in runs && api.jobs(runs[wf].id).Success? :: api.jobs(runs[wf].id).value);
    AnswersAre(api, sha, required, a);
    hide Reachable;
    hide AnswersOf;
    hide IsLatest;
    if !(Workflows(required) <= runs.Keys) {
      MissingFails(a, required, red);
      return Success(Fail);
    }
    r := JudgeAll(api, required, red, runs, a);
  }

  lemma AnswersAre(api: Api, sha: string, required: seq<Pair>, a: Answers)
    requires api.runs(sha).Success? && IsLatest(api.runs(sha).value, sha, Workflows(required), a.runs)
    requires a.jobs == map wf | wf in a.runs && api.jobs(a.runs[wf].id).Success? :: api.jobs(a.runs[wf].id).value
    ensures Reachable(api, sha, required)
            <==> (AllThere(a, required) ==> forall wf | wf in Workflows(required) :: api.jobs(a.runs[wf].id).Success?)
    ensures Reachable(api, sha, required) ==> a == AnswersOf(api, sha, required)
  {
    assert AllThere(a, required)
           <==> forall wf | wf in Workflows(required) :: Latest(api.runs(sha).value, sha, wf).Some?;
  }

  lemma MissingFails(a: Answers, required: seq<Pair>, red: seq<Pair>)
    requires !AllThere(a, required)
    ensures Judge(a, required, red) == Fail
  {}

  method Running(workflows: set<string>, runs: map<string, Run>) returns (pending: seq<Finding>)
    requires workflows <= runs.Keys
    ensures forall f :: f in pending <==> f.RunRunning? && f.wf in workflows && runs[f.wf].status != "completed"
  {
    pending := [];
    var rest := workflows;
    while rest != {}
      invariant rest <= workflows
      invariant forall f ::
                  f in pending <==> f.RunRunning? && f.wf in workflows - rest && runs[f.wf].status != "completed"
      decreases rest
    {
      var wf :| wf in rest;
      if runs[wf].status != "completed" {
        pending := pending + [RunRunning(wf)];
      }
      rest := rest - {wf};
    }
  }

  lemma CoversMore(a: Answers, required: seq<Pair>, red: seq<Pair>, wfs: set<string>, wf: string,
                   problems: seq<Finding>, pending: seq<Finding>,
                   p1: seq<Finding>, q1: seq<Finding>, p2: seq<Finding>, q2: seq<Finding>)
    requires Covers(a, required, red, wfs, problems, pending)
    requires forall f :: f in p1 <==> f.wf == wf && !f.BadOther? && IsProblem(a, required, red, f)
    requires forall f :: f in q1 <==> f.wf == wf && f.RequiredRunning? && IsPending(a, required, red, f)
    requires forall f :: f in p2 <==> f.wf == wf && f.BadOther? && IsProblem(a, required, red, f)
    requires forall f :: f in q2 <==> f.wf == wf && f.OtherRunning? && IsPending(a, required, red, f)
    ensures Covers(a, required, red, wfs + {wf}, problems + p1 + p2, pending + q1 + q2)
  {
    forall f
      ensures f in problems + p1 + p2 <==> f.wf in wfs + {wf} && IsProblem(a, required, red, f)
    {
      hide IsProblem;
      assert f in problems + p1 + p2 <==> f in problems || f in p1 || f in p2;
    }
    forall f
      ensures f in pending + q1 + q2 <==> IsPending(a, required, red, f) && (f.RunRunning? || f.wf in wfs + {wf})
    {
      assert f in pending + q1 + q2 <==> f in pending || f in q1 || f in q2;
    }
  }

  lemma CoversAll(a: Answers, required: seq<Pair>, red: seq<Pair>, wfs: set<string>, problems: seq<Finding>,
                  pending: seq<Finding>)
    requires wfs == Workflows(required) && Covers(a, required, red, wfs, problems, pending)
    ensures problems != [] <==> AnyProblem(a, required, red)
    ensures pending != [] <==> AnyPending(a, required, red)
  {
    if problems != [] {
      assert problems[0] in problems;
    }
    if pending != [] {
      assert pending[0] in pending;
    }
    if f :| IsProblem(a, required, red, f) {
      assert f.DidNotRun? || f.NotSuccess? ==> (f.wf, f.job).0 in wfs;
      assert f in problems;
    }
    if f :| IsPending(a, required, red, f) {
      assert f.RequiredRunning? ==> (f.wf, f.job).0 in wfs;
      assert f in pending;
    }
  }

  // ---- the newest commit that passed, and the exit status ----

  predicate IsHex(c: char) { '0' <= c <= '9' || 'a' <= c <= 'f' }

  predicate IsSha(s: string) { |s| == 40 && forall c | c in s :: IsHex(c) }

  /** A full commit id: forty small hexadecimal digits. */
  lemma ShaIs(s: string)
    ensures IsSha(s) <==> |s| == 40 && forall i | 0 <= i < 40 :: s[i] in "0123456789abcdef"
  {
    forall c: char
      ensures IsHex(c) <==> c in "0123456789abcdef"
    {
      HexIs(c);
    }
  }

  lemma HexIs(c: char)
    ensures IsHex(c) <==> c in "0123456789abcdef"
  {
    var digits := "0123456789abcdef";
    if '0' <= c <= '9' {
      assert digits[c as int - '0' as int] == c;
    } else if 'a' <= c <= 'f' {
      assert digits[c as int - 'a' as int + 10] == c;
    }
  }

  /** The different commits worth asking about, newest first. */
  function Candidates(shas: seq<string>, skip: string): seq<string> {
    if shas == [] then []
    else
      var front, last := Candidates(shas[..|shas| - 1], skip), shas[|shas| - 1];
      if IsSha(last) && last != skip && last !in front then front + [last] else front
  }

  ghost predicate Passes(api: Api, required: seq<Pair>, red: seq<Pair>, sha: string) {
    Reachable(api, sha, required) && Judge(AnswersOf(api, sha, required), required, red) == Pass
  }

  lemma {:induction false} CandidatesPrefix(shas: seq<string>, skip: string, i: nat)
    requires i <= |shas|
    ensures Candidates(shas[..i], skip) <= Candidates(shas, skip)
    decreases |shas|
  {
    if i == |shas| {
      assert shas[..i] == shas;
    } else {
      CandidatesPrefix(shas[..|shas| - 1], skip, i);
      assert shas[..|shas| - 1][..i] == shas[..i];
    }
  }

  /** `found` is the first of the newest candidates that passed, None when none of them did. */
  ghost predicate IsNewest(api: Api, required: seq<Pair>, red: seq<Pair>, asked: seq<string>, found: Option<string>) {
    match found
    case Some(sha) => exists k :: 0 <= k < |asked| && asked[k] == sha && Passes(api, required, red, sha)
                                  && forall j | 0 <= j < k :: !Passes(api, required, red, asked[j])
    case None => forall j | 0 <= j < |asked| :: !Passes(api, required, red, asked[j])
  }

  function Newest(shas: seq<string>, skip: string): seq<string> {
    var c := Candidates(shas, skip);
    if |c| > CANDIDATES then c[..CANDIDATES] else c
  }

  method NewestPassed(api: Api, history: Result<seq<string>, Unreachable>, skip: string, required: seq<Pair>,
                      red: seq<Pair>)
    returns (r: Result<Option<string>, Unreachable>)
    ensures r.Success? ==> history.Success? && IsNewest(api, required, red, Newest(history.value, skip), r.value)
    ensures r.Failure?
            ==> history.Failure? || exists sha | sha in Newest(history.value, skip) :: !Reachable(api, sha, required)
  {
    if history.Failure? {
      return Failure(history.error);
    }
    var shas := history.value;
    var seen: seq<string> := [];
    hide Passes;
    for i := 0 to |shas|
      invariant seen == Candidates(shas[..i], skip) && |seen| <= CANDIDATES
      invariant IsNewest(api, required, red, seen, None)
    {
      assert shas[..i + 1][..i] == shas[..i];
      CandidatesPrefix(shas, skip, i + 1);
      var sha := shas[i];
      if !IsSha(sha) || sha == skip || sha in seen {
        continue;
      }
      ghost var before := seen;
      seen := seen + [sha];
      if |seen| > CANDIDATES {
        assert Newest(shas, skip) == before;
        return Success(None);
      }
      assert Newest(shas, skip)[|before|] == sha;
      var v := Evaluate(api, sha, required, red);
      if v.Failure? {
        return Failure(v.error);
      }
      assert v.value == Pass <==> Passes(api, required, red, sha) by { IsPass(api, required, red, sha); }
      if v.value == Pass {
        assert forall j | 0 <= j < |before| :: Newest(shas, skip)[j] == before[j];
        return Success(Some(sha));
      }
    }
    assert shas[..|shas|] == shas;
    r := Success(None);
  }

  lemma IsPass(api: Api, required: seq<Pair>, red: seq<Pair>, sha: string)
    requires Reachable(api, sha, required)
    ensures Passes(api, required, red, sha) <==> Judge(AnswersOf(api, sha, required), required, red) == Pass
  {}

  // ---- requiring more ----

  predicate SameOf(a: Answers, b: Answers, wf: string) {
    && (wf in a.runs <==> wf in b.runs) && (wf in a.runs && wf in b.runs ==> a.runs[wf] == b.runs[wf])
    && (wf in a.jobs <==> wf in b.jobs) && (wf in a.jobs && wf in b.jobs ==> a.jobs[wf] == b.jobs[wf])
  }

  lemma InWorkflows(required: seq<Pair>, wf: string, job: string)
    requires (wf, job) in required
    ensures wf in Workflows(required)
  {
    assert (wf, job).0 == wf;
  }

  /** The verdict depends only on what was answered for the required workflows. */
  lemma JudgeReads(a: Answers, b: Answers, required: seq<Pair>, red: seq<Pair>)
    requires forall wf | wf in Workflows(required) :: SameOf(a, b, wf)
    ensures Judge(a, required, red) == Judge(b, required, red)
  {
    hide Workflows;
    forall f
      ensures IsProblem(a, required, red, f) == IsProblem(b, required, red, f)
      ensures IsPending(a, required, red, f) == IsPending(b, required, red, f)
    {
      if !f.RunRunning? && (f.wf, f.job) in required {
        InWorkflows(required, f.wf, f.job);
      }
      if f.wf in Workflows(required) {
        assert SameOf(a, b, f.wf);
      }
    }
    assert forall wf | wf in Workflows(required) :: SameOf(a, b, wf);
  }

  lemma SameAnswers(api: Api, sha: string, required: seq<Pair>, more: seq<Pair>, wf: string)
    requires Reachable(api, sha, required) && Reachable(api, sha, more) && wf in Workflows(required)
             && wf in Workflows(more)
    ensures SameOf(AnswersOf(api, sha, more), AnswersOf(api, sha, required), wf)
  {}

  lemma MoreWorkflows(required: seq<Pair>, more: seq<Pair>)
    requires forall p | p in required :: p in more
    ensures Workflows(required) <= Workflows(more)
  {}

  /** Two evaluations of one commit, each reading only the workflows it requires: the longer list never does better. */
  lemma MoreRequired(api: Api, sha: string, required: seq<Pair>, more: seq<Pair>, red: seq<Pair>)
    requires (forall p | p in required :: p in more) && Reachable(api, sha, required) && Reachable(api, sha, more)
    ensures Rank(Judge(AnswersOf(api, sha, more), more, red))
            <= Rank(Judge(AnswersOf(api, sha, required), required, red))
  {
    MoreWorkflows(required, more);
    hide Workflows;
    hide Reachable;
    hide AnswersOf;
    hide Judge;
    hide SameOf;
    forall wf | wf in Workflows(required)
      ensures SameOf(AnswersOf(api, sha, more), AnswersOf(api, sha, required), wf)
    {
      SameAnswers(api, sha, required, more, wf);
    }
    JudgeReads(AnswersOf(api, sha, more), AnswersOf(api, sha, required), required, red);
    StricterOnAnswers(AnswersOf(api, sha, more), required, more, red);
  }

  /**
  When the longer list cannot be read and the shorter one can, what is missing is the jobs of a workflow only the longer
  one requires; the gate then answers that GitHub could not be reached, never that the commit passes.
  */
  lemma MoreRequiredUnread(api: Api, sha: string, required: seq<Pair>, more: seq<Pair>) returns (wf: string)
    requires (forall p | p in required :: p in more) && Reachable(api, sha, required) && !Reachable(api, sha, more)
    ensures wf in Workflows(more) && wf !in Workflows(required)
    ensures Latest(api.runs(sha).value, sha, wf).Some?
            && api.jobs(Latest(api.runs(sha).value, sha, wf).value.id).Failure?
  {
    MoreWorkflows(required, more);
    wf :| wf in Workflows(more) && api.jobs(Latest(api.runs(sha).value, sha, wf).value.id).Failure?;
  }

  /** A commit that passes the longer list can be read under the shorter one, and passes it. */
  lemma MoreRequiredPasses(api: Api, sha: string, required: seq<Pair>, more: seq<Pair>, red: seq<Pair>)
    requires (forall p | p in required :: p in more) && Passes(api, more, red, sha)
    ensures Passes(api, required, red, sha)
  {
    MoreWorkflows(required, more);
    assert AllThere(AnswersOf(api, sha, more), more);
    ReadableBelow(api, sha, required, more);
    hide Reachable;
    hide AnswersOf;
    hide Judge;
    MoreRequired(api, sha, required, more, red);
  }

  lemma ReadableBelow(api: Api, sha: string, required: seq<Pair>, more: seq<Pair>)
    requires Reachable(api, sha, more) && AllThere(AnswersOf(api, sha, more), more)
             && Workflows(required) <= Workflows(more)
    ensures Reachable(api, sha, required)
  {}

  /** The exit status of `ci_gate.py check`, the settings already read. */
  method Gate(api: Api, sha: string, history: Result<seq<string>, Unreachable>, required: seq<Pair>, red: seq<Pair>)
    returns (exit: nat, newest: Option<string>)
    ensures exit == 2 <==> exists p :: p in required && p in red
    ensures exit == 3 <==> (forall p | p in required :: p !in red) && !Reachable(api, sha, required)
    ensures exit == 0 <==> (forall p | p in required :: p !in red) && Reachable(api, sha, required)
                           && Passed(AnswersOf(api, sha, required), required, red)
    ensures exit in {0, 1, 2, 3}
    ensures newest.Some? ==> exit == 1 && Passes(api, required, red, newest.value) && newest.value != sha
  {
    newest := None;
    if exists p | p in required :: p in red {
      return 2, None;
    }
    hide Reachable;
    hide AnswersOf;
    var v := Evaluate(api, sha, required, red);
    if v.Failure? {
      return 3, None;
    }
    PassExactly(AnswersOf(api, sha, required), required, red);
    hide Passed;
    hide Judge;
    if v.value == Pass {
      return 0, None;
    }
    var n := NewestPassed(api, history, sha, required, red);
    exit := 1;
    if n.Success? {
      newest := n.value;
      NotSkipped(history.value, sha);
    }
  }

  lemma {:induction false} NotSkipped(shas: seq<string>, skip: string)
    ensures skip !in Candidates(shas, skip)
  {
    if shas != [] {
      NotSkipped(shas[..|shas| - 1], skip);
    }
  }
}
