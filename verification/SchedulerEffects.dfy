/** What each service call does, said about the rows, votes and counts before and
    after it and not through the functions the transition system is made of. */
module SchedulerEffects {
  import opened Scheduler

  // ----- changes of rows

  ghost predicate SameRest(s: State, t: State) {
    t.votes == s.votes && t.paused == s.paused && t.handed == s.handed
  }

  /** Row `id` gets a status and keeps all else; no other row changes. */
  ghost predicate RowSet(before: Builds, after: Builds, id: BuildId, st: Status) {
    && id in before && after.Keys == before.Keys
    && after[id] == Build(before[id].job, st, before[id].number)
    && forall x :: x in before && x != id ==> after[x] == before[x]
  }

  /** A superseded row is cancelled if it had not finished. */
  ghost predicate Superseded(before: Build, after: Build) {
    after == if before.status in {Started, Pending, WaitingForApproval} then Build(before.job, Cancelled, before.number)
             else before
  }

  /** The rows of job `j` below an id are superseded, and no other row changes. */
  ghost predicate OlderCancelled(before: Builds, after: Builds, j: JobKey, id: BuildId) {
    && after.Keys == before.Keys
    && (forall x :: x in before && (before[x].job != j || x >= id) ==> after[x] == before[x])
    && (forall x :: x in before && before[x].job == j && x < id ==> Superseded(before[x], after[x]))
  }

  /** There is a new row.  The rows of other jobs, and those of a job that is not
      interruptible, are as before; older rows of an interruptible job are
      superseded. */
  ghost predicate RowAdded(cfg: Config, before: Builds, after: Builds, j: JobKey, id: BuildId, st: Status)
    requires j in cfg
  {
    && id !in before && after.Keys == before.Keys + {id}
    && after[id].job == j && after[id].status == st
    && (forall x :: x in before && (before[x].job != j || !cfg[j].interruptible) ==> after[x] == before[x])
    && (forall x :: x in before && before[x].job == j && cfg[j].interruptible ==> Superseded(before[x], after[x]))
  }

  /** One above the greatest number a first build of the job has. */
  ghost predicate FollowsFirsts(builds: Builds, j: JobKey, n: Number) {
    && n.retry == 0 && n.main > 0
    && (forall x :: x in builds && builds[x].job == j && builds[x].number.retry == 0 ==> builds[x].number.main < n.main)
    && (n.main == 1 || exists x :: x in builds && builds[x].job == j && builds[x].number == Number(n.main - 1, 0))
  }

  /** One above the greatest retry of the given number. */
  ghost predicate FollowsRetries(builds: Builds, j: JobKey, main: nat, n: Number) {
    && n.main == main && n.retry > 0
    && (forall x :: x in builds && builds[x].job == j && builds[x].number.main == main
          ==> builds[x].number.retry < n.retry)
    && (n.retry == 1 || exists x :: x in builds && builds[x].job == j && builds[x].number == Number(main, n.retry - 1))
  }

  // ----- creating calls

  /** The call has to create a build. */
  ghost predicate Due(cfg: Config, s: State, step: Step)
    requires Inserts(step)
  {
    step.j in cfg &&
    match step
    case CreateRetry(j, _, _) => !cfg[j].disableRetry
    case EvaluateDownstream(j, ready, _) =>
      ready && j !in s.paused && forall x :: x in s.builds && s.builds[x].job == j ==> s.builds[x].status != Pending
    case _ => step.j !in s.paused
  }

  /** Only a first build of a job with an approval label waits. */
  ghost function QueuedAs(c: JobConfig, retry: bool): Status {
    if !retry && c.approveLabel != "" then WaitingForApproval else Pending
  }

  ghost predicate Numbered(s: State, step: Step, n: Number)
    requires Inserts(step)
  {
    if step.CreateRetry? then FollowsRetries(s.builds, step.j, step.main, n) else FollowsFirsts(s.builds, step.j, n)
  }

  /** The whole effect of creating a build. */
  ghost predicate Adds(cfg: Config, s: State, step: Step, t: State)
    requires Inserts(step) && step.j in cfg
  {
    && RowAdded(cfg, s.builds, t.builds, step.j, step.newId, QueuedAs(cfg[step.j], step.CreateRetry?))
    && Numbered(s, step, t.builds[step.newId].number) && SameRest(s, t)
  }

  /** All three ways of creating a build: a new row with the queued status and the
      next number, and no row touched but older ones of the same interruptible job.
      A call that is not due changes nothing. */
  lemma CreationEffect(cfg: Config, s: State, step: Step)
    requires Inserts(step) && Allowed(s, step)
    ensures var t := Next(cfg, s, step);
      if Due(cfg, s, step) then Adds(cfg, s, step, t) else t == s
  {
    if Due(cfg, s, step) {
      NewNumber(s, step);
      var n := if step.CreateRetry? then RetryNumber(s.builds, step.j, step.main) else FirstNumber(s.builds, step.j);
      InsertEffect(cfg, s, step.j, QueuedAs(cfg[step.j], step.CreateRetry?), n, step.newId);
      hide FirstNumber, RetryNumber, Numbered, Insert, RowAdded;
      assert Creates(cfg, s, step);
    }
  }

  lemma InsertEffect(cfg: Config, s: State, j: JobKey, st: Status, number: Number, newId: BuildId)
    requires j in cfg && forall x :: x in s.builds ==> x < newId
    ensures var t := Insert(cfg, s, j, st, number, newId);
      && RowAdded(cfg, s.builds, t.builds, j, newId, st) && t.builds[newId].number == number && SameRest(s, t)
  {
    var added := s.builds[newId := Build(j, st, number)];
    if cfg[j].interruptible { OlderEffect(added, j, newId); }
  }

  lemma OlderEffect(before: Builds, j: JobKey, newId: BuildId)
    ensures OlderCancelled(before, CancelOlder(before, j, newId), j, newId)
  {
  }

  lemma NewNumber(s: State, step: Step)
    requires Inserts(step)
    ensures Numbered(s, step, if step.CreateRetry? then RetryNumber(s.builds, step.j, step.main)
      else FirstNumber(s.builds, step.j))
  {
    var b, j := s.builds, step.j;
    if step.CreateRetry? {
      var n := RetryNumber(b, j, step.main);
      forall x | x in b && b[x].job == j && b[x].number.main == step.main ensures b[x].number.retry < n.retry {
        if b[x].number.retry > 0 { assert b[x].number.retry in Retries(b, j, step.main); }
      }
    } else {
      var n := FirstNumber(b, j);
      forall x | x in b && b[x].job == j && b[x].number.retry == 0 ensures b[x].number.main < n.main {
        assert b[x].number.main in Mains(b, j);
      }
    }
  }

  // ----- votes

  /** The votes on a build. */
  ghost function VotesOn(s: State, id: BuildId): Ballot { if id in s.votes then s.votes[id] else map[] }

  /** A user's vote is added, and the build gets a status. */
  ghost predicate Decided(s: State, t: State, id: BuildId, user: string, v: Vote, st: Status) {
    && t.votes == s.votes[id := VotesOn(s, id)[user := v]] && RowSet(s.builds, t.builds, id, st)
    && t.paused == s.paused && t.handed == s.handed
  }

  ghost predicate OpenTo(s: State, id: BuildId, user: string) {
    id in s.builds && s.builds[id].status == WaitingForApproval && user !in VotesOn(s, id)
  }

  /** How many users have approved a build so far. */
  ghost function Approvals(s: State, id: BuildId): nat {
    |set u | u in VotesOn(s, id) && VotesOn(s, id)[u] == Approved|
  }

  /** An approval makes the build pending exactly when the approvals, this one
      included, number at least the count of its job; else it goes on waiting. */
  lemma ApprovalEffect(cfg: Config, s: State, id: BuildId, user: string)
    ensures var t := Next(cfg, s, ApproveBuild(id, user));
      if OpenTo(s, id, user) && s.builds[id].job in cfg && cfg[s.builds[id].job].approveLabel != "" then
        Decided(s, t, id, user, Approved,
                if Approvals(s, id) + 1 >= cfg[s.builds[id].job].approveCount then Pending else WaitingForApproval)
      else t == s
  {
    var b := VotesOn(s, id);
    if user !in b {
      assert Approvers(b[user := Approved]) == (set u | u in b && b[u] == Approved) + {user};
    }
  }

  lemma RejectionEffect(cfg: Config, s: State, id: BuildId, user: string, message: string)
    ensures var t := Next(cfg, s, RejectBuild(id, user, message));
      if OpenTo(s, id, user) && message != "" then Decided(s, t, id, user, Rejected, Failed) else t == s
  {
  }

  // ----- the other calls

  ghost function RunningOf(builds: Builds, j: JobKey): nat {
    |set x | x in builds && builds[x].job == j && builds[x].status == Started|
  }

  lemma RunningCounted(builds: Builds, j: JobKey)
    ensures |Running(builds, j)| == RunningOf(builds, j)
  {
    assert Running(builds, j) == set x | x in builds && builds[x].job == j && builds[x].status == Started;
  }

  /** A running build of another job of the pipeline has a serial group of `j`. */
  ghost predicate GroupBusy(cfg: Config, builds: Builds, j: JobKey)
    requires j in cfg
  {
    exists x, g :: x in builds && builds[x].status == Started && builds[x].job != j
      && builds[x].job.pipeline == j.pipeline && builds[x].job in cfg
      && g in cfg[builds[x].job].serialGroups && g in cfg[j].serialGroups
  }

  /** A pending build starts, and is handed to a worker, exactly when its job is not
      paused, below its concurrency, and no serial group of it is busy. */
  lemma StartEffect(cfg: Config, s: State, j: JobKey, id: BuildId)
    ensures var t := Next(cfg, s, StartPending(j, id));
      if id in s.builds && s.builds[id].status == Pending && j in cfg && j !in s.paused
        && (cfg[j].concurrency > 0 ==> RunningOf(s.builds, j) < cfg[j].concurrency) && !GroupBusy(cfg, s.builds, j)
      then RowSet(s.builds, t.builds, id, Started) && t.handed == s.handed + [id]
        && t.votes == s.votes && t.paused == s.paused
      else t == s
  {
    if j in cfg {
      RunningCounted(s.builds, j);
      RivalsAreBusy(cfg, s.builds, j);
      hide GroupBusy, Rivals;
    }
  }

  lemma RivalsAreBusy(cfg: Config, b: Builds, j: JobKey)
    requires j in cfg
    ensures Rivals(cfg, b, j) != {} <==> GroupBusy(cfg, b, j)
  {
    if Rivals(cfg, b, j) != {} {
      var x :| x in Rivals(cfg, b, j);
      var g :| g in cfg[b[x].job].serialGroups * cfg[j].serialGroups;
    }
    if GroupBusy(cfg, b, j) {
      var x, g :| x in b && b[x].status == Started && b[x].job != j && b[x].job.pipeline == j.pipeline
        && b[x].job in cfg && g in cfg[b[x].job].serialGroups && g in cfg[j].serialGroups;
      assert g in cfg[b[x].job].serialGroups * cfg[j].serialGroups;
      assert x in Rivals(cfg, b, j);
    }
  }

  /** A cancelled build is one that had not finished, a warning one that had failed,
      and a report is stored as it is unless the build was cancelled. */
  lemma StatusEffects(cfg: Config, s: State, id: BuildId, st: Status)
    requires id in s.builds
    ensures var t := Next(cfg, s, CancelBuild(id));
      if s.builds[id].status in {Started, Pending, WaitingForApproval}
      then RowSet(s.builds, t.builds, id, Cancelled) && SameRest(s, t) else t == s
    ensures var t := Next(cfg, s, MarkWarning(id));
      if s.builds[id].status == Failed then RowSet(s.builds, t.builds, id, Warning) && SameRest(s, t) else t == s
    ensures var t := Next(cfg, s, UpdateBuild(id, st));
      RowSet(s.builds, t.builds, id, if s.builds[id].status == Cancelled then Cancelled else st) && SameRest(s, t)
  {
  }

  /** Recovery fails the running builds and no others; deletion takes a row and its
      votes and nothing else; pausing concerns one job. */
  lemma RowEffects(cfg: Config, s: State, id: BuildId, j: JobKey, on: bool)
    ensures var t := Next(cfg, s, RecoverOrphans);
      && t.builds.Keys == s.builds.Keys && SameRest(s, t)
      && forall x :: x in s.builds ==>
           t.builds[x] == if s.builds[x].status == Started then Build(s.builds[x].job, Failed, s.builds[x].number)
                          else s.builds[x]
    ensures var t := Next(cfg, s, SetPaused(j, on));
      t.builds == s.builds && t.votes == s.votes && t.handed == s.handed &&
      forall k :: k in t.paused <==> if k == j then on else k in s.paused
    ensures var t := Next(cfg, s, DeleteBuild(id));
      && id !in t.builds && t.paused == s.paused && t.handed == s.handed
      && (forall x :: x in t.builds <==> x in s.builds && x != id)
      && (forall x :: x in t.builds ==> t.builds[x] == s.builds[x])
      && (id in s.builds ==> id !in t.votes)
      && (forall x :: x != id ==> (x in t.votes <==> x in s.votes) && (x in t.votes ==> t.votes[x] == s.votes[x]))
  {
  }
}
