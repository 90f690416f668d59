/** A finished job sets off others (EvaluateDownstreamJobs, evaluateJobDownstream and
    MarkBuildAsWarning, pikoci/builds.go:677-869): the decision and the transaction
    together. */
module Triggering {
  import opened Scheduler
  import opened SchedulerSafety
  import opened SchedulerService
  import opened Reachability
  import opened Downstream

  method EvaluateJobDownstream(server: Server, pipeline: string, f: Facts, completed: string, j: Job, jobs: seq<Job>)
    returns (triggered: bool)
    requires server.Valid()
    modifies server
    ensures server.Valid()
    ensures server.Now() == Next(server.cfg, old(server.Now()),
      EvaluateDownstream(JobKey(pipeline, j.name), Ready(f, jobs, j, completed), NewId(server.rule, old(server.Now()))))
    ensures var k := JobKey(pipeline, j.name);
      triggered <==> && k in server.cfg && k !in old(server.paused) && !HasPending(old(server.builds), k)
                     && SetOff(f, jobs, j, completed)
    ensures Inv(server.cfg, old(server.Now())) ==> Inv(server.cfg, server.Now())
  {
    hide Ready, SetOff, Inv;
    var candidates, _ := FindCandidates(f, completed, j, jobs);
    triggered := server.CreateTriggered(JobKey(pipeline, j.name), candidates.Some?);
  }

  /** The steps of one evaluation of the whole pipeline, job by job. */
  ghost predicate Evaluates(server: Server, pipeline: string, f: Facts, completed: string, jobs: seq<Job>, n: nat,
                            states: seq<State>)
    requires n <= |jobs|
  {
    && |states| == n + 1
    && forall k :: 0 <= k < n ==>
         states[k + 1] == Next(server.cfg, states[k],
           EvaluateDownstream(JobKey(pipeline, jobs[k].name), Ready(f, jobs, jobs[k], completed),
                              NewId(server.rule, states[k])))
  }

  method EvaluateDownstreamJobs(server: Server, pipeline: string, f: Facts, completed: string, jobs: seq<Job>)
    returns (ghost states: seq<State>)
    requires server.Valid()
    modifies server
    ensures server.Valid() && Evaluates(server, pipeline, f, completed, jobs, |jobs|, states)
    ensures states[0] == old(server.Now()) && states[|jobs|] == server.Now()
    ensures Inv(server.cfg, old(server.Now())) ==> Inv(server.cfg, server.Now())
  {
    hide Next, NewId, Ready, Inv;
    states := [server.Now()];
    for i := 0 to |jobs|
      invariant server.Valid() && Evaluates(server, pipeline, f, completed, jobs, i, states)
      invariant states[0] == old(server.Now()) && states[i] == server.Now()
      invariant Inv(server.cfg, old(server.Now())) ==> Inv(server.cfg, server.Now())
    {
      var _ := EvaluateJobDownstream(server, pipeline, f, completed, jobs[i], jobs);
      states := states + [server.Now()];
    }
  }

  /** Marks a failed build and lets the jobs behind it go on. */
  method MarkBuildAsWarning(server: Server, pipeline: string, name: string, n: Number, f: Facts, jobs: seq<Job>)
    returns (err: Error, ghost states: seq<State>)
    requires server.Valid()
    modifies server
    ensures server.Valid()
    ensures var st := StatusOf(old(server.builds), JobKey(pipeline, name), n);
      err == if st.None? then NotFound else if st.value != Failed then NotFailed else Ok
    ensures err != Ok ==> server.Now() == old(server.Now())
    ensures err == Ok ==>
      && Evaluates(server, pipeline, f, name, jobs, |jobs|, states) && states[|jobs|] == server.Now()
      && states[0] == OnRow(server.cfg, old(server.Now()), JobKey(pipeline, name), n, (id: BuildId) => MarkWarning(id))
    ensures Inv(server.cfg, old(server.Now())) ==> Inv(server.cfg, server.Now())
  {
    hide Inv;
    states := [];
    err := server.MarkAsWarning(JobKey(pipeline, name), n);
    if err == Ok { states := EvaluateDownstreamJobs(server, pipeline, f, name, jobs); }
  }
}
