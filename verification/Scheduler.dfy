/** The build scheduler as a transition system (pikoci/builds.go, approvals.go,
    work.go): what each service call does to the build rows. */
module Scheduler {
  datatype Status = Succeeded | Failed | Started | Cancelled | Pending | WaitingForApproval | Warning

  predicate Active(s: Status) { s == Started || s == Pending || s == WaitingForApproval }

  datatype JobKey = JobKey(pipeline: string, name: string)

  datatype JobConfig = JobConfig(
    concurrency: int,            // 0 or less: no limit
    serialGroups: set<string>,
    approveLabel: string,        // "": no approval gate
    approveCount: int,
    interruptible: bool,
    disableRetry: bool)

  type Config = map<JobKey, JobConfig>
  type BuildId = nat

  /** "3" is Number(3, 0), and its second retry "3.2" is Number(3, 2). */
  datatype Number = Number(main: nat, retry: nat)

  datatype Build = Build(job: JobKey, status: Status, number: Number)

  datatype Vote = Approved | Rejected
  type Ballot = map<string, Vote>    // one vote per user

  type Builds = map<BuildId, Build>

  /** The rows of the repository, and the log of build ids handed to workers.
      `nextId` is above every id ever used. */
  datatype State = State(
    builds: Builds,
    nextId: BuildId,
    votes: map<BuildId, Ballot>,
    paused: set<JobKey>,
    handed: seq<BuildId>)

  predicate Gated(c: JobConfig) { c.approveLabel != "" }

  function GateStatus(c: JobConfig): Status { if Gated(c) then WaitingForApproval else Pending }

  // ----- queries

  ghost predicate IsRunning(builds: Builds, id: BuildId) { id in builds && builds[id].status == Started }

  function Running(builds: Builds, j: JobKey): set<BuildId> {
    set id | id in builds && builds[id].job == j && builds[id].status == Started
  }

  /** Running builds of other jobs of the pipeline that share a serial group with `j`. */
  function Rivals(cfg: Config, builds: Builds, j: JobKey): set<BuildId>
    requires j in cfg
  {
    set id | id in builds && builds[id].status == Started && builds[id].job != j
          && builds[id].job.pipeline == j.pipeline
          && builds[id].job in cfg && cfg[builds[id].job].serialGroups * cfg[j].serialGroups != {}
  }

  /** One more build of `j` may start. */
  ghost predicate Fits(cfg: Config, builds: Builds, j: JobKey)
    requires j in cfg
  {
    (cfg[j].concurrency > 0 ==> |Running(builds, j)| < cfg[j].concurrency) && Rivals(cfg, builds, j) == {}
  }

  predicate HasPending(builds: Builds, j: JobKey) {
    exists id :: id in builds && builds[id].job == j && builds[id].status == Pending
  }

  ghost function BallotOf(s: State, id: BuildId): Ballot { if id in s.votes then s.votes[id] else map[] }

  function Approvers(b: Ballot): set<string> { set u | u in b && b[u] == Approved }

  ghost predicate NobodyRejected(b: Ballot) { forall u :: u in b ==> b[u] == Approved }

  // ----- the service calls

  ghost function SetStatus(builds: Builds, id: BuildId, st: Status): Builds
    requires id in builds
  {
    builds[id := builds[id].(status := st)]
  }

  /** cancelOlderBuilds */
  ghost function CancelOlder(builds: Builds, j: JobKey, newId: BuildId): Builds {
    map id | id in builds ::
      if builds[id].job == j && id < newId && Active(builds[id].status) then builds[id].(status := Cancelled)
      else builds[id]
  }

  /** A new row, followed by the cancellation of older builds of an interruptible job. */
  ghost function Insert(cfg: Config, s: State, j: JobKey, st: Status, number: Number, newId: BuildId): State
    requires j in cfg
  {
    var added := s.builds[newId := Build(j, st, number)];
    s.(builds := if cfg[j].interruptible then CancelOlder(added, j, newId) else added,
       nextId := if newId < s.nextId then s.nextId else newId + 1)
  }

  // ----- numbers and ids of new rows

  /** MAX + 1, or 1 when there is nothing yet. */
  ghost function Following(s: set<nat>): (n: nat)
    ensures n > 0 && (forall x :: x in s ==> x < n) && (n == 1 || n - 1 in s)
  {
    if s == {} then 1
    else
      var x :| x in s;
      var m := Following(s - {x});
      assert forall y :: y in s <==> y == x || y in s - {x};
      if x < m then m else x + 1
  }

  function Mains(builds: Builds, j: JobKey): set<nat> {
    set id | id in builds && builds[id].job == j && builds[id].number.retry == 0 :: builds[id].number.main
  }

  function Retries(builds: Builds, j: JobKey, main: nat): set<nat> {
    set id | id in builds && builds[id].job == j && builds[id].number.main == main && builds[id].number.retry > 0
      :: builds[id].number.retry
  }

  ghost function FirstNumber(builds: Builds, j: JobKey): Number { Number(Following(Mains(builds, j)), 0) }

  ghost function RetryNumber(builds: Builds, j: JobKey, main: nat): Number {
    Number(main, Following(Retries(builds, j, main)))
  }

  /** MySQL and PostgreSQL count; SQLite, which is also the in-memory default, takes
      the greatest id present plus one. */
  datatype IdRule = Counter | GreatestPlusOne

  ghost function NewId(rule: IdRule, s: State): BuildId {
    match rule case Counter => s.nextId case GreatestPlusOne => Following(s.builds.Keys)
  }

  datatype Step =
    | CreateJobBuild(j: JobKey, newId: BuildId)
    | CreateRetry(j: JobKey, main: nat, newId: BuildId)
    | EvaluateDownstream(j: JobKey, ready: bool, newId: BuildId)
    | ApproveBuild(id: BuildId, user: string)
    | RejectBuild(id: BuildId, user: string, message: string)
    | StartPending(j: JobKey, id: BuildId)
    | CancelBuild(id: BuildId)
    | UpdateBuild(id: BuildId, status: Status)
    | MarkWarning(id: BuildId)
    | RecoverOrphans
    | DeleteBuild(id: BuildId)
    | SetPaused(j: JobKey, on: bool)

  ghost predicate MayStart(cfg: Config, s: State, j: JobKey, id: BuildId) {
    && j in cfg && j !in s.paused && Fits(cfg, s.builds, j)
    && id in s.builds && s.builds[id].status == Pending
  }

  ghost predicate MayVote(s: State, id: BuildId, user: string) {
    id in s.builds && s.builds[id].status == WaitingForApproval && user !in BallotOf(s, id)
  }

  ghost function Voted(s: State, id: BuildId, user: string, v: Vote): State {
    s.(votes := s.votes[id := BallotOf(s, id)[user := v]])
  }

  ghost function Approve(cfg: Config, s: State, id: BuildId, user: string): State {
    if !(MayVote(s, id, user) && s.builds[id].job in cfg && Gated(cfg[s.builds[id].job])) then s
    else
      var t := Voted(s, id, user, Approved);
      if |Approvers(BallotOf(t, id))| >= cfg[s.builds[id].job].approveCount
      then t.(builds := SetStatus(t.builds, id, Pending)) else t
  }

  ghost function Reject(s: State, id: BuildId, user: string, message: string): State {
    if message == "" || !MayVote(s, id, user) then s
    else Voted(s, id, user, Rejected).(builds := SetStatus(s.builds, id, Failed))
  }

  /** The call creates a build. */
  ghost predicate Creates(cfg: Config, s: State, step: Step) {
    match step
    case CreateJobBuild(j, _) => j in cfg && j !in s.paused
    case CreateRetry(j, _, _) => j in cfg && !cfg[j].disableRetry
    case EvaluateDownstream(j, ready, _) => j in cfg && j !in s.paused && ready && !HasPending(s.builds, j)
    case _ => false
  }

  /** A retry goes straight to Pending, under the number of its first build. */
  ghost function Created(cfg: Config, s: State, step: Step): State
    requires Creates(cfg, s, step)
  {
    var st := if step.CreateRetry? then Pending else GateStatus(cfg[step.j]);
    var number := if step.CreateRetry? then RetryNumber(s.builds, step.j, step.main) else FirstNumber(s.builds, step.j);
    Insert(cfg, s, step.j, st, number, step.newId)
  }

  ghost function Next(cfg: Config, s: State, step: Step): State {
    if Creates(cfg, s, step) then Created(cfg, s, step)
    else
    match step
    case ApproveBuild(id, user) => Approve(cfg, s, id, user)
    case RejectBuild(id, user, message) => Reject(s, id, user, message)
    case StartPending(j, id) =>
      if MayStart(cfg, s, j, id)
      then s.(builds := SetStatus(s.builds, id, Started), handed := s.handed + [id]) else s
    case CancelBuild(id) =>
      if id in s.builds && Active(s.builds[id].status)
      then s.(builds := SetStatus(s.builds, id, Cancelled)) else s
    case UpdateBuild(id, st) =>
      if id !in s.builds then s
      else s.(builds := SetStatus(s.builds, id, if s.builds[id].status == Cancelled then Cancelled else st))
    case MarkWarning(id) =>
      if id in s.builds && s.builds[id].status == Failed
      then s.(builds := SetStatus(s.builds, id, Warning)) else s
    case RecoverOrphans =>
      s.(builds := map id | id in s.builds ::
           if s.builds[id].status == Started then s.builds[id].(status := Failed) else s.builds[id])
    case DeleteBuild(id) =>
      if id in s.builds then s.(builds := s.builds - {id}, votes := s.votes - {id}) else s
    case SetPaused(j, on) => s.(paused := if on then s.paused + {j} else s.paused - {j})
    case _ => s
  }

  predicate Inserts(step: Step) { step.CreateJobBuild? || step.CreateRetry? || step.EvaluateDownstream? }

  /** What the database and the callers keep to.  A new id is above all ids present.
      NextWork starts only builds it found under the job it names; a worker reports
      only on a build it was given and that is still running or was cancelled
      meanwhile, and reports it running or finished. */
  ghost predicate Allowed(s: State, step: Step) {
    && (Inserts(step) ==> forall id :: id in s.builds ==> id < step.newId)
    && (step.StartPending? && step.id in s.builds ==> s.builds[step.id].job == step.j)
    && (step.UpdateBuild? ==>
          && (step.id in s.builds ==> s.builds[step.id].status == Started || s.builds[step.id].status == Cancelled)
          && (step.status == Started || !Active(step.status)))
  }

  /** The step gives a new row the id the database would. */
  ghost predicate Obeys(rule: IdRule, s: State, step: Step) {
    Inserts(step) ==> step.newId == NewId(rule, s)
  }

  ghost predicate StepAt(cfg: Config, states: seq<State>, steps: seq<Step>, i: nat)
    requires i < |steps| < |states|
  {
    Allowed(states[i], steps[i]) && states[i + 1] == Next(cfg, states[i], steps[i])
  }

  ghost predicate Run(cfg: Config, states: seq<State>, steps: seq<Step>) {
    && |states| == |steps| + 1
    && states[0].builds == map[] && states[0].votes == map[] && states[0].handed == []
    && forall i :: 0 <= i < |steps| ==> StepAt(cfg, states, steps, i)
  }

  /** A run of a server on a given database. */
  ghost predicate RunUnder(rule: IdRule, cfg: Config, states: seq<State>, steps: seq<Step>) {
    Run(cfg, states, steps) && forall i :: 0 <= i < |steps| ==> Obeys(rule, states[i], steps[i])
  }
}
