/** The scheduler's service calls as they run: each changes the repository rows
    step by step, and each is proved to be one step of the transition system. */
module SchedulerService {
  import opened Scheduler
  import opened SchedulerEffects
  import opened SchedulerSafety
  import opened SchedulerEdges
  import opened Wrappers

  datatype Error =
    | Ok | NotFound | JobPaused | ConcurrencyLimit | SerialGroupLimit | NotPending | RetryDisabled
    | StillActive | NotWaiting | NoGate | AlreadyVoted | MessageRequired | NotActive | NotFailed

  /** The first check of StartPendingBuild that fails. */
  ghost function StartError(cfg: Config, s: State, j: JobKey, id: BuildId): Error {
    if j !in cfg then NotFound
    else if j in s.paused then JobPaused
    else if cfg[j].concurrency > 0 && RunningOf(s.builds, j) >= cfg[j].concurrency then ConcurrencyLimit
    else if GroupBusy(cfg, s.builds, j) then SerialGroupLimit
    else if id !in s.builds || s.builds[id].status != Pending then NotPending
    else Ok
  }

  /** NextWork can take a build of `j`. */
  ghost predicate HasWork(cfg: Config, s: State, j: JobKey) {
    && j in cfg && j !in s.paused
    && (cfg[j].concurrency > 0 ==> RunningOf(s.builds, j) < cfg[j].concurrency) && !GroupBusy(cfg, s.builds, j)
    && exists id :: id in s.builds && s.builds[id].job == j && s.builds[id].status == Pending
  }

  ghost predicate OldestPendingIs(builds: Builds, j: JobKey, id: BuildId) {
    && id in builds && builds[id].job == j && builds[id].status == Pending
    && forall k :: k in builds && builds[k].job == j && builds[k].status == Pending ==> id <= k
  }

  /** The first check of RetryJobBuild that fails. */
  ghost function RetryError(cfg: Config, builds: Builds, j: JobKey, n: Number): Error {
    var st := StatusOf(builds, j, n);
    if j !in cfg then NotFound
    else if cfg[j].disableRetry then RetryDisabled
    else if st.None? then NotFound
    else if Active(st.value) then StillActive
    else if RowOf(builds, j, Number(n.main, 0)).None? then NotFound
    else Ok
  }

  ghost predicate IsBuild(builds: Builds, j: JobKey, n: Number, id: BuildId) {
    id in builds && builds[id].job == j && builds[id].number == n
  }

  /** The row a job name and a build number stand for. */
  ghost function RowOf(builds: Builds, j: JobKey, n: Number): Option<BuildId> {
    if exists id :: IsBuild(builds, j, n, id) then var id :| IsBuild(builds, j, n, id); Some(id) else None
  }

  ghost function StatusOf(builds: Builds, j: JobKey, n: Number): Option<Status> {
    var r := RowOf(builds, j, n);
    if r.Some? && r.value in builds then Some(builds[r.value].status) else None
  }

  /** The state after a step on the row, if there is one. */
  ghost function OnRow(cfg: Config, s: State, j: JobKey, n: Number, step: BuildId -> Step): State {
    match RowOf(s.builds, j, n) case None => s case Some(id) => Next(cfg, s, step(id))
  }

  // ----- each call keeps what holds in every run

  lemma CreatingKeeps(rule: IdRule, cfg: Config, s: State, step: Step)
    requires Inserts(step) && Obeys(rule, s, step)
    ensures Inv(cfg, s) ==> Inv(cfg, Next(cfg, s, step))
  {
    hide Inv, Next, Obeys;
    if Inv(cfg, s) { CreationKeepsInv(rule, cfg, s, step); }
  }

  /** What a creating call does to the rows: all of it, or nothing. */
  lemma CreatingAdds(rule: IdRule, cfg: Config, s: State, step: Step)
    requires Inserts(step) && Obeys(rule, s, step)
    ensures var t := Next(cfg, s, step);
      Inv(cfg, s) ==> if Due(cfg, s, step) then Adds(cfg, s, step, t) else t == s
  {
    hide Next, Limits, OnlyNewest, GateKept, RunningHanded, UniqueNumbers, NewId, Adds, Due;
    if Inv(cfg, s) {
      RulesGiveFreshIds(rule, cfg, s, step);
      CreationEffect(cfg, s, step);
    }
  }

  /** Steps that need no discipline. */
  predicate Undisputed(step: Step) { !Inserts(step) && !step.StartPending? && !step.UpdateBuild? }

  lemma UndisputedKeeps(cfg: Config, s: State, step: Step)
    requires Undisputed(step)
    ensures Inv(cfg, s) ==> Inv(cfg, Next(cfg, s, step))
  {
    hide Inv, Next;
    if Inv(cfg, s) { StepKeepsInv(cfg, s, step); }
  }

  lemma OnRowKeeps(cfg: Config, s: State, j: JobKey, n: Number, step: BuildId -> Step)
    requires forall id :: Undisputed(step(id))
    ensures Inv(cfg, s) ==> Inv(cfg, OnRow(cfg, s, j, n, step))
  {
    hide Inv, Next;
    match RowOf(s.builds, j, n) {
      case None =>
      case Some(id) => UndisputedKeeps(cfg, s, step(id));
    }
  }

  lemma StartKeeps(cfg: Config, s: State, j: JobKey, id: BuildId)
    requires id in s.builds ==> s.builds[id].job == j
    ensures Inv(cfg, s) ==> Inv(cfg, Next(cfg, s, StartPending(j, id)))
  {
    hide Inv, Next;
    if Inv(cfg, s) { StepKeepsInv(cfg, s, StartPending(j, id)); }
  }

  ghost predicate ReportFits(cfg: Config, s: State, j: JobKey, n: Number, st: Status)
    requires Inv(cfg, s)
  {
    match RowOf(s.builds, j, n) case None => true case Some(id) => Tolerable(cfg, s, id, st)
  }

  lemma ReportKeeps(cfg: Config, s: State, j: JobKey, n: Number, st: Status)
    requires Inv(cfg, s)
    ensures Inv(cfg, OnRow(cfg, s, j, n, (id: BuildId) => UpdateBuild(id, st))) <==> ReportFits(cfg, s, j, n, st)
  {
    hide Inv, Next, Tolerable;
    match RowOf(s.builds, j, n) {
      case None =>
      case Some(id) => UpdateKeepsInvExactlyWhen(cfg, s, id, st);
    }
  }

  // ----- single steps spelled out

  lemma UpdateIs(cfg: Config, s: State, id: BuildId, st: Status)
    requires id in s.builds
    ensures Next(cfg, s, UpdateBuild(id, st)) ==
      s.(builds := SetStatus(s.builds, id, if s.builds[id].status == Cancelled then Cancelled else st))
  {
  }

  lemma VoteIs(cfg: Config, s: State, id: BuildId, user: string, message: string)
    ensures Next(cfg, s, Step.ApproveBuild(id, user)) == Approve(cfg, s, id, user)
    ensures Next(cfg, s, Step.RejectBuild(id, user, message)) == Reject(s, id, user, message)
  {
    hide Approve, Reject;
  }

  lemma StartIs(cfg: Config, s: State, j: JobKey, id: BuildId)
    ensures Next(cfg, s, StartPending(j, id)) ==
      if MayStart(cfg, s, j, id) then s.(builds := SetStatus(s.builds, id, Started), handed := s.handed + [id]) else s
  {
    hide MayStart;
  }

  lemma NoGroupNoRivals(cfg: Config, builds: Builds, j: JobKey)
    requires j in cfg && cfg[j].serialGroups == {}
    ensures Rivals(cfg, builds, j) == {}
  {
  }

  class Server {
    const cfg: Config
    const rule: IdRule
    var builds: Builds
    var nextId: BuildId
    var votes: map<BuildId, Ballot>
    var paused: set<JobKey>
    ghost var handed: seq<BuildId>

    constructor (cfg: Config, rule: IdRule)
      ensures this.cfg == cfg && this.rule == rule && Valid() && Now() == State(map[], 1, map[], {}, [])
    {
      this.cfg, this.rule, builds, nextId, votes, paused, handed := cfg, rule, map[], 1, map[], {}, [];
    }

    ghost function Now(): State reads this { State(builds, nextId, votes, paused, handed) }

    /** What the unique index on job and number guarantees. */
    ghost predicate Valid() reads this { UniqueNumbers(builds) }

    method Find(j: JobKey, n: Number) returns (r: Option<BuildId>)
      requires Valid()
      ensures r == RowOf(builds, j, n)
      ensures r.Some? ==> IsBuild(builds, j, n, r.value)
    {
      var todo := builds.Keys;
      while todo != {}
        invariant todo <= builds.Keys
        invariant forall id :: IsBuild(builds, j, n, id) ==> id in todo
      {
        var id :| id in todo;
        if builds[id].job == j && builds[id].number == n { assert IsBuild(builds, j, n, id); return Some(id); }
        todo := todo - {id};
      }
      return None;
    }

    method SetRow(id: BuildId, st: Status)
      requires id in builds && Valid()
      modifies this`builds
      ensures builds == SetStatus(old(builds), id, st) && Valid()
    {
      builds := builds[id := builds[id].(status := st)];
    }

    method CancelOlderBuilds(j: JobKey, newId: BuildId)
      modifies this`builds
      ensures builds == CancelOlder(old(builds), j, newId)
      ensures OlderCancelled(old(builds), builds, j, newId)
    {
      var older := set id | id in builds && builds[id].job == j && id < newId && Active(builds[id].status);
      ghost var before, all := builds, older;
      while older != {}
        invariant older <= all && builds.Keys == before.Keys
        invariant forall id :: id in builds ==>
          builds[id] == if id in all - older then before[id].(status := Cancelled) else before[id]
      {
        var id :| id in older;
        builds := builds[id := builds[id].(status := Cancelled)];
        older := older - {id};
      }
    }

    method MaxPlusOne(s: set<nat>) returns (n: nat)
      ensures n == Following(s)
    {
      n := 1;
      var rest := s;
      while rest != {}
        invariant rest <= s && n > 0
        invariant forall x :: x in s && x !in rest ==> x < n
        invariant n == 1 || n - 1 in s
      {
        var x :| x in rest;
        if n <= x { n := x + 1; }
        rest := rest - {x};
      }
    }

    method InsertRow(j: JobKey, st: Status, number: Number) returns (id: BuildId)
      requires j in cfg
      modifies this`builds, this`nextId
      ensures id == NewId(rule, old(Now())) && Now() == Insert(cfg, old(Now()), j, st, number, id)
    {
      if rule == Counter { id := nextId; } else { id := MaxPlusOne(builds.Keys); }
      builds := builds[id := Build(j, st, number)];
      if nextId <= id { nextId := id + 1; }
      if cfg[j].interruptible { CancelOlderBuilds(j, id); }
    }

    method InsertFirst(j: JobKey) returns (id: BuildId)
      requires Valid() && j in cfg
      modifies this`builds, this`nextId
      ensures id == NewId(rule, old(Now()))
      ensures Now() == Insert(cfg, old(Now()), j, GateStatus(cfg[j]), FirstNumber(old(builds), j), id)
    {
      var st := Pending;
      if cfg[j].approveLabel != "" { st := WaitingForApproval; }
      var main := MaxPlusOne(Mains(builds, j));
      id := InsertRow(j, st, Number(main, 0));
    }

    method CreateJobBuild(j: JobKey) returns (err: Error)
      requires Valid()
      modifies this
      ensures Valid() && Now() == Next(cfg, old(Now()), Step.CreateJobBuild(j, NewId(rule, old(Now()))))
      ensures err == if j !in cfg then NotFound else if j in old(paused) then JobPaused else Ok
      ensures err != Ok ==> Now() == old(Now())
      ensures Inv(cfg, old(Now())) && err == Ok ==>
        Adds(cfg, old(Now()), Step.CreateJobBuild(j, NewId(rule, old(Now()))), Now())
      ensures Inv(cfg, old(Now())) ==> Inv(cfg, Now())
    {
      hide Insert, FirstNumber, UniqueNumbers, Inv, Adds;
      CreatingKeeps(rule, cfg, Now(), Step.CreateJobBuild(j, NewId(rule, Now())));
      CreatingAdds(rule, cfg, Now(), Step.CreateJobBuild(j, NewId(rule, Now())));
      if j !in cfg { return NotFound; }
      if j in paused { return JobPaused; }
      CreationKeepsNumbers(cfg, Now(), Step.CreateJobBuild(j, NewId(rule, Now())));
      var _ := InsertFirst(j);
      return Ok;
    }

    method CreateRetryJobBuild(j: JobKey, main: nat) returns (err: Error)
      requires Valid()
      modifies this
      ensures Valid() && Now() == Next(cfg, old(Now()), CreateRetry(j, main, NewId(rule, old(Now()))))
      ensures err == if j !in cfg then NotFound else if cfg[j].disableRetry then RetryDisabled else Ok
      ensures err != Ok ==> Now() == old(Now())
      ensures Inv(cfg, old(Now())) && err == Ok ==>
        Adds(cfg, old(Now()), CreateRetry(j, main, NewId(rule, old(Now()))), Now())
      ensures Inv(cfg, old(Now())) ==> Inv(cfg, Now())
    {
      hide Insert, UniqueNumbers, Inv, Adds;
      CreatingKeeps(rule, cfg, Now(), CreateRetry(j, main, NewId(rule, Now())));
      CreatingAdds(rule, cfg, Now(), CreateRetry(j, main, NewId(rule, Now())));
      if j !in cfg { return NotFound; }
      if cfg[j].disableRetry { return RetryDisabled; }
      CreationKeepsNumbers(cfg, Now(), CreateRetry(j, main, NewId(rule, Now())));
      var retry := MaxPlusOne(Retries(builds, j, main));
      var _ := InsertRow(j, Pending, Number(main, retry));
      return Ok;
    }

    /** A retry of a retry goes back to the first build, which must still be there. */
    method RetryJobBuild(j: JobKey, n: Number) returns (err: Error)
      requires Valid()
      modifies this
      ensures Valid()
      ensures err == RetryError(cfg, old(builds), j, n)
      ensures err == Ok <==>
        && j in cfg && !cfg[j].disableRetry && (exists id :: IsBuild(old(builds), j, Number(n.main, 0), id))
        && exists id :: IsBuild(old(builds), j, n, id) &&
             old(builds)[id].status !in {Started, Pending, WaitingForApproval}
      ensures Now() == if err == Ok then Next(cfg, old(Now()), CreateRetry(j, n.main, NewId(rule, old(Now()))))
        else old(Now())
      ensures Inv(cfg, old(Now())) && err == Ok ==>
        j in cfg && Adds(cfg, old(Now()), CreateRetry(j, n.main, NewId(rule, old(Now()))), Now())
      ensures Inv(cfg, old(Now())) ==> Inv(cfg, Now())
    {
      hide Next, NewId, Inv, Adds;
      if j !in cfg { return NotFound; }
      if cfg[j].disableRetry { return RetryDisabled; }
      var r := Find(j, n);
      if r.None? { return NotFound; }
      if Active(builds[r.value].status) { return StillActive; }
      var parent := Find(j, Number(n.main, 0));
      if parent.None? { return NotFound; }
      err := CreateRetryJobBuild(j, n.main);
    }

    /** The transaction of evaluateJobDownstream: unless a build is already pending. */
    method CreateTriggered(j: JobKey, ready: bool) returns (triggered: bool)
      requires Valid()
      modifies this
      ensures Valid() && Now() == Next(cfg, old(Now()), EvaluateDownstream(j, ready, NewId(rule, old(Now()))))
      ensures triggered <==>
        && j in cfg && j !in old(paused) && ready
        && forall id :: id in old(builds) && old(builds)[id].job == j ==> old(builds)[id].status != Pending
      ensures !triggered ==> Now() == old(Now())
      ensures Inv(cfg, old(Now())) && triggered ==>
        Adds(cfg, old(Now()), EvaluateDownstream(j, ready, NewId(rule, old(Now()))), Now())
      ensures Inv(cfg, old(Now())) ==> Inv(cfg, Now())
    {
      hide Insert, FirstNumber, UniqueNumbers, Inv, Adds;
      CreatingKeeps(rule, cfg, Now(), EvaluateDownstream(j, ready, NewId(rule, Now())));
      CreatingAdds(rule, cfg, Now(), EvaluateDownstream(j, ready, NewId(rule, Now())));
      triggered := false;
      if j !in cfg || j in paused || !ready { return; }
      var pending := FindOldestPending(j);
      if pending.Some? { return; }
      CreationKeepsNumbers(cfg, Now(), EvaluateDownstream(j, ready, NewId(rule, Now())));
      var _ := InsertFirst(j);
      triggered := true;
    }

    method CastVote(id: BuildId, user: string, v: Vote) returns (err: Error, ballot: Ballot)
      modifies this`votes
      ensures err == if user in BallotOf(old(Now()), id) then AlreadyVoted else Ok
      ensures Now() == if err == Ok then Voted(old(Now()), id, user, v) else old(Now())
      ensures ballot == BallotOf(Now(), id)
    {
      ballot := if id in votes then votes[id] else map[];
      if user in ballot { return AlreadyVoted, ballot; }
      ballot := ballot[user := v];
      votes := votes[id := ballot];
      err := Ok;
    }

    method ApproveBuild(j: JobKey, n: Number, user: string) returns (err: Error)
      requires Valid()
      modifies this
      ensures Valid() && Now() == OnRow(cfg, old(Now()), j, n, (id: BuildId) => Step.ApproveBuild(id, user))
      ensures var r := RowOf(old(builds), j, n);
        err == Ok <==> r.Some? && OpenTo(old(Now()), r.value, user) && j in cfg && cfg[j].approveLabel != ""
      ensures err != Ok ==> Now() == old(Now())
      ensures err == Ok ==> exists id ::
        IsBuild(old(builds), j, n, id) &&
        Decided(old(Now()), Now(), id, user, Approved,
                if Approvals(old(Now()), id) + 1 >= cfg[j].approveCount then Pending else WaitingForApproval)
      ensures Inv(cfg, old(Now())) ==> Inv(cfg, Now())
    {
      hide Inv, Next;
      OnRowKeeps(cfg, Now(), j, n, (id: BuildId) => Step.ApproveBuild(id, user));
      var r := Find(j, n);
      if r.Some? { VoteIs(cfg, Now(), r.value, user, ""); }
      if r.None? || j !in cfg { return NotFound; }
      var id := r.value;
      if builds[id].status != WaitingForApproval { return NotWaiting; }
      var c := cfg[j];
      if c.approveLabel == "" { return NoGate; }
      var ballot;
      err, ballot := CastVote(id, user, Approved);
      if err != Ok { return; }
      ApprovalEffect(cfg, old(Now()), id, user);
      if |Approvers(ballot)| >= c.approveCount { SetRow(id, Pending); }
      return Ok;
    }

    method RejectBuild(j: JobKey, n: Number, user: string, message: string) returns (err: Error)
      requires Valid()
      modifies this
      ensures Valid() && Now() == OnRow(cfg, old(Now()), j, n, (id: BuildId) => Step.RejectBuild(id, user, message))
      ensures var r := RowOf(old(builds), j, n);
        err == Ok <==> message != "" && r.Some? && OpenTo(old(Now()), r.value, user)
      ensures err != Ok ==> Now() == old(Now())
      ensures err == Ok ==>
        exists id :: IsBuild(old(builds), j, n, id) && Decided(old(Now()), Now(), id, user, Rejected, Failed)
      ensures Inv(cfg, old(Now())) ==> Inv(cfg, Now())
    {
      hide Inv, Next;
      OnRowKeeps(cfg, Now(), j, n, (id: BuildId) => Step.RejectBuild(id, user, message));
      forall id { VoteIs(cfg, Now(), id, user, message); }
      if message == "" { return MessageRequired; }
      var r := Find(j, n);
      if r.None? { return NotFound; }
      var id := r.value;
      if builds[id].status != WaitingForApproval { return NotWaiting; }
      var ballot;
      err, ballot := CastVote(id, user, Rejected);
      if err != Ok { return; }
      SetRow(id, Failed);
    }

    method StartPendingBuild(j: JobKey, id: BuildId) returns (err: Error)
      requires Valid()
      modifies this
      ensures Valid() && Now() == Next(cfg, old(Now()), StartPending(j, id))
      ensures err == StartError(cfg, old(Now()), j, id)
      ensures err == Ok <==> MayStart(cfg, old(Now()), j, id)
      ensures if err == Ok then RowSet(old(builds), builds, id, Started) && handed == old(handed) + [id]
        else Now() == old(Now())
      ensures Inv(cfg, old(Now())) && (id in old(builds) ==> old(builds)[id].job == j) ==> Inv(cfg, Now())
    {
      hide Inv, Next, RunningOf, GroupBusy, Running, Rivals;
      if j in cfg {
        RunningCounted(builds, j);
        RivalsAreBusy(cfg, builds, j);
      }
      if id in builds ==> builds[id].job == j { StartKeeps(cfg, Now(), j, id); }
      StartIs(cfg, Now(), j, id);
      if j !in cfg { return NotFound; }
      if j in paused { return JobPaused; }
      if cfg[j].concurrency > 0 {
        var running := |Running(builds, j)|;
        if running >= cfg[j].concurrency { return ConcurrencyLimit; }
      }
      if cfg[j].serialGroups == {} { NoGroupNoRivals(cfg, builds, j); }
      if cfg[j].serialGroups != {} {
        var rivals := |Rivals(cfg, builds, j)|;
        if rivals > 0 { return SerialGroupLimit; }
      }
      if id !in builds || builds[id].status != Pending { return NotPending; }
      SetRow(id, Started);
      handed := handed + [id];
      return Ok;
    }

    method CancelJobBuild(j: JobKey, n: Number) returns (err: Error)
      requires Valid()
      modifies this
      ensures Valid() && Now() == OnRow(cfg, old(Now()), j, n, (id: BuildId) => CancelBuild(id))
      ensures var st := StatusOf(old(builds), j, n);
        err == if st.None? then NotFound
          else if st.value in {Started, Pending, WaitingForApproval} then Ok else NotActive
      ensures err != Ok ==> Now() == old(Now())
      ensures err == Ok ==> exists id :: IsBuild(old(builds), j, n, id) && RowSet(old(builds), builds, id, Cancelled)
      ensures Inv(cfg, old(Now())) ==> Inv(cfg, Now())
    {
      hide Inv;
      OnRowKeeps(cfg, Now(), j, n, (id: BuildId) => CancelBuild(id));
      var r := Find(j, n);
      if r.None? { return NotFound; }
      if !Active(builds[r.value].status) { return NotActive; }
      SetRow(r.value, Cancelled);
      return Ok;
    }

    method UpdateJobBuild(j: JobKey, n: Number, status: Status) returns (err: Error)
      requires Valid()
      modifies this
      ensures Valid() && Now() == OnRow(cfg, old(Now()), j, n, (id: BuildId) => UpdateBuild(id, status))
      ensures err == if RowOf(old(builds), j, n).Some? then Ok else NotFound
      ensures err != Ok ==> Now() == old(Now())
      ensures err == Ok ==> exists id ::
        IsBuild(old(builds), j, n, id) &&
        RowSet(old(builds), builds, id, if old(builds)[id].status == Cancelled then Cancelled else status)
      ensures Inv(cfg, old(Now())) ==> (Inv(cfg, Now()) <==> ReportFits(cfg, old(Now()), j, n, status))
    {
      hide Inv, Next;
      if Inv(cfg, Now()) { ReportKeeps(cfg, Now(), j, n, status); }
      var r := Find(j, n);
      if r.Some? { UpdateIs(cfg, Now(), r.value, status); }
      var st := status;
      if r.Some? && builds[r.value].status == Cancelled { st := Cancelled; }
      if r.None? { return NotFound; }
      SetRow(r.value, st);
      return Ok;
    }

    method MarkAsWarning(j: JobKey, n: Number) returns (err: Error)
      requires Valid()
      modifies this
      ensures Valid() && Now() == OnRow(cfg, old(Now()), j, n, (id: BuildId) => MarkWarning(id))
      ensures var st := StatusOf(old(builds), j, n);
        err == if st.None? then NotFound else if st.value != Failed then NotFailed else Ok
      ensures err != Ok ==> Now() == old(Now())
      ensures err == Ok ==> exists id :: IsBuild(old(builds), j, n, id) && RowSet(old(builds), builds, id, Warning)
      ensures Inv(cfg, old(Now())) ==> Inv(cfg, Now())
    {
      hide Inv;
      OnRowKeeps(cfg, Now(), j, n, (id: BuildId) => MarkWarning(id));
      var r := Find(j, n);
      if r.None? { return NotFound; }
      if builds[r.value].status != Failed { return NotFailed; }
      SetRow(r.value, Warning);
      return Ok;
    }

    method DeleteJobBuild(j: JobKey, n: Number) returns (err: Error)
      requires Valid()
      modifies this
      ensures Valid() && Now() == OnRow(cfg, old(Now()), j, n, (id: BuildId) => DeleteBuild(id))
      ensures err == if RowOf(old(builds), j, n).Some? then Ok else NotFound
      ensures Inv(cfg, old(Now())) ==> Inv(cfg, Now())
    {
      hide Inv;
      OnRowKeeps(cfg, Now(), j, n, (id: BuildId) => DeleteBuild(id));
      var r := Find(j, n);
      if r.None? { return NotFound; }
      builds, votes := builds - {r.value}, votes - {r.value};
      return Ok;
    }

    method RecoverOrphanedBuilds() returns (n: nat)
      requires Valid()
      modifies this
      ensures Valid() && Now() == Next(cfg, old(Now()), RecoverOrphans)
      ensures n == |set id | id in old(builds) && old(builds)[id].status == Started|
      ensures Inv(cfg, old(Now())) ==> Inv(cfg, Now())
    {
      hide Inv;
      UndisputedKeeps(cfg, Now(), RecoverOrphans);
      n := |set id | id in builds && builds[id].status == Started|;
      builds := map id | id in builds ::
        if builds[id].status == Started then builds[id].(status := Failed) else builds[id];
    }

    method FindOldestPending(j: JobKey) returns (r: Option<BuildId>)
      ensures r.None? <==> !HasPending(builds, j)
      ensures r.Some? ==> OldestPendingIs(builds, j, r.value)
    {
      var pending := set id | id in builds && builds[id].job == j && builds[id].status == Pending;
      r := None;
      var rest := pending;
      while rest != {}
        invariant rest <= pending
        invariant r.None? <==> rest == pending
        invariant r.Some? ==> r.value in pending && forall k :: k in pending && k !in rest ==> r.value <= k
      {
        var id :| id in rest;
        if r.None? || id < r.value { r := Some(id); }
        rest := rest - {id};
      }
      assert forall id :: id in pending <==> id in builds && builds[id].job == j && builds[id].status == Pending;
      assert pending != {} ==> exists id :: id in pending;
    }

    /** Phase 1 of NextWork: the first job in scan order that the worker serves and
        that has work gives its oldest pending build; otherwise nothing changes. */
    method NextWork(order: seq<JobKey>, serves: set<JobKey>) returns (r: Option<BuildId>, ghost at: nat)
      requires Valid()
      modifies this
      ensures Valid()
      ensures r.None? ==> Now() == old(Now()) && at == |order|
      ensures r.Some? ==> at < |order| && order[at] in serves && HasWork(cfg, old(Now()), order[at])
      ensures r.Some? ==> OldestPendingIs(old(builds), order[at], r.value)
      ensures r.Some? ==> Now() == Next(cfg, old(Now()), StartPending(order[at], r.value))
      ensures r.Some? ==> handed == old(handed) + [r.value]
      ensures forall k :: 0 <= k < at ==> order[k] !in serves || !HasWork(cfg, old(Now()), order[k])
      ensures Inv(cfg, old(Now())) ==> Inv(cfg, Now())
    {
      hide Inv;
      for i := 0 to |order|
        invariant Valid() && Now() == old(Now())
        invariant forall k :: 0 <= k < i ==> order[k] !in serves || !HasWork(cfg, old(Now()), order[k])
      {
        var j := order[i];
        if j !in paused && j in serves {
          var pending := FindOldestPending(j);
          if pending.Some? {
            var err := StartPendingBuild(j, pending.value);
            if err == Ok {
              if Inv(cfg, old(Now())) { StepKeepsInv(cfg, old(Now()), StartPending(j, pending.value)); }
              return pending, i;
            }
          }
        }
      }
      return None, |order|;
    }
  }
}
