/** What holds in every state of every interleaving of scheduler calls, on every
    database. */
module SchedulerSafety {
  import opened Scheduler
  import opened SchedulerEffects
  import opened Collections

  // ----- the invariants

  ghost predicate IdsKnown(cfg: Config, s: State) {
    && (forall id :: id in s.builds ==> id < s.nextId && s.builds[id].job in cfg)
    && s.votes.Keys <= s.builds.Keys
    && (forall id :: id in s.handed ==> id < s.nextId)
  }

  /** Job and number identify a build. */
  ghost predicate UniqueNumbers(builds: Builds) {
    forall a, b :: a in builds && b in builds && builds[a].job == builds[b].job && builds[a].number == builds[b].number
      ==> a == b
  }

  /** No job runs more builds at once than its concurrency allows. */
  ghost predicate ConcurrencyKept(cfg: Config, builds: Builds) {
    forall j :: j in cfg && cfg[j].concurrency > 0 ==> RunningOf(builds, j) <= cfg[j].concurrency
  }

  /** No two running builds of different jobs of a pipeline share a serial group. */
  ghost predicate SerialKept(cfg: Config, builds: Builds) {
    forall a, b :: IsRunning(builds, a) && IsRunning(builds, b) && builds[a].job != builds[b].job
      && builds[a].job.pipeline == builds[b].job.pipeline && builds[a].job in cfg && builds[b].job in cfg
      ==> cfg[builds[a].job].serialGroups * cfg[builds[b].job].serialGroups == {}
  }

  ghost predicate Limits(cfg: Config, builds: Builds) {
    ConcurrencyKept(cfg, builds) && SerialKept(cfg, builds)
  }

  ghost predicate IsActive(builds: Builds, id: BuildId) { id in builds && Active(builds[id].status) }

  ghost predicate Superseding(cfg: Config, j: JobKey, k: JobKey) { j == k && j in cfg && cfg[j].interruptible }

  /** An interruptible job has at most one build that is running or queued. */
  ghost predicate OnlyNewest(cfg: Config, builds: Builds) {
    forall a, b :: IsActive(builds, a) && IsActive(builds, b) && Superseding(cfg, builds[a].job, builds[b].job)
      ==> a == b
  }

  /** The approvals a build needs; the first one is always needed. */
  ghost function Needed(c: JobConfig): nat { if c.approveCount > 1 then c.approveCount else 1 }

  ghost predicate Cleared(c: JobConfig, b: Ballot) { |Approvers(b)| >= Needed(c) && NobodyRejected(b) }

  /** What the gate of its job asks of a first build with a given status. */
  ghost predicate GateLets(cfg: Config, s: State, id: BuildId, st: Status)
    requires id in s.builds
  {
    var b := s.builds[id];
    b.job in cfg && Gated(cfg[b.job]) && b.number.retry == 0 ==>
      && (st == WaitingForApproval ==>
            NobodyRejected(BallotOf(s, id)) && |Approvers(BallotOf(s, id))| < Needed(cfg[b.job]))
      && (st == Pending || st == Started ==> Cleared(cfg[b.job], BallotOf(s, id)))
  }

  /** A first build of a gated job gets past the gate only when cleared, and waits
      only as long as approvals are missing. */
  ghost predicate GateKept(cfg: Config, s: State) {
    forall id :: id in s.builds ==> GateLets(cfg, s, id, s.builds[id].status)
  }

  /** Only builds that were handed to a worker run. */
  ghost predicate RunningHanded(s: State) {
    forall id :: IsRunning(s.builds, id) ==> id in s.handed
  }

  ghost predicate Inv(cfg: Config, s: State) {
    && IdsKnown(cfg, s) && UniqueNumbers(s.builds) && Limits(cfg, s.builds) && OnlyNewest(cfg, s.builds)
    && GateKept(cfg, s) && RunningHanded(s)
  }

  // ----- the life of a row

  predicate Queued(st: Status) { st == Pending || st == WaitingForApproval }

  predicate Forward(a: Status, b: Status) {
    || a == b
    || (a == WaitingForApproval && (b == Pending || b == Failed || b == Cancelled))
    || (a == Pending && (b == Started || b == Cancelled))
    || (a == Started && !Active(b))
    || (a == Failed && b == Warning)
  }

  /** A row keeps its job and number and moves forward; a new row is queued and only
      comes from a call that creates one; a row only goes when it is deleted. */
  ghost predicate RowEvolves(s: State, step: Step, t: State, id: BuildId) {
    if id in s.builds then
      if id in t.builds then
        && t.builds[id].job == s.builds[id].job && t.builds[id].number == s.builds[id].number
        && Forward(s.builds[id].status, t.builds[id].status) && step != DeleteBuild(id)
      else step == DeleteBuild(id)
    else id in t.builds ==> Inserts(step) && id == step.newId && Queued(t.builds[id].status)
  }

  ghost predicate Evolves(s: State, step: Step, t: State) {
    s.nextId <= t.nextId && forall id :: RowEvolves(s, step, t, id)
  }

  predicate Votes(step: Step) { step.ApproveBuild? || step.RejectBuild? }

  lemma CreatedRow(cfg: Config, s: State, step: Step, id: BuildId)
    requires Creates(cfg, s, step) && Allowed(s, step)
    ensures RowEvolves(s, step, Created(cfg, s, step), id)
  {
    hide FirstNumber, RetryNumber;
  }

  lemma OtherRow(cfg: Config, s: State, step: Step, id: BuildId)
    requires !Creates(cfg, s, step) && Allowed(s, step)
    ensures RowEvolves(s, step, Next(cfg, s, step), id)
  {
    hide Fits;
  }

  lemma CreationIsKnown(cfg: Config, s: State, step: Step)
    requires IdsKnown(cfg, s) && Creates(cfg, s, step)
    ensures s.nextId <= Created(cfg, s, step).nextId && IdsKnown(cfg, Created(cfg, s, step))
  {
    hide FirstNumber, RetryNumber;
  }

  lemma OtherIsKnown(cfg: Config, s: State, step: Step)
    requires IdsKnown(cfg, s) && !Creates(cfg, s, step)
    ensures s.nextId <= Next(cfg, s, step).nextId && IdsKnown(cfg, Next(cfg, s, step))
  {
    hide Fits;
  }

  /** Every call moves rows forward, and Cancelled is the end of the line. */
  lemma StepEvolves(cfg: Config, s: State, step: Step)
    requires Allowed(s, step) && IdsKnown(cfg, s)
    ensures Evolves(s, step, Next(cfg, s, step)) && IdsKnown(cfg, Next(cfg, s, step))
  {
    hide Created, RowEvolves, Allowed, IdsKnown;
    if Creates(cfg, s, step) {
      CreationIsKnown(cfg, s, step);
      forall id ensures RowEvolves(s, step, Next(cfg, s, step), id) { CreatedRow(cfg, s, step, id); }
    } else {
      hide Next;
      OtherIsKnown(cfg, s, step);
      forall id ensures RowEvolves(s, step, Next(cfg, s, step), id) { OtherRow(cfg, s, step, id); }
    }
  }

  // ----- numbers

  lemma CreationKeepsNumbers(cfg: Config, s: State, step: Step)
    requires UniqueNumbers(s.builds) && Creates(cfg, s, step)
    ensures UniqueNumbers(Created(cfg, s, step).builds)
  {
    var j, n := step.j, if step.CreateRetry? then RetryNumber(s.builds, step.j, step.main)
      else FirstNumber(s.builds, step.j);
    forall id | id in s.builds && s.builds[id].job == j ensures s.builds[id].number != n {
      if s.builds[id].number.retry == 0 { assert s.builds[id].number.main in Mains(s.builds, j); }
      else if step.CreateRetry? && s.builds[id].number.main == step.main {
        assert s.builds[id].number.retry in Retries(s.builds, j, step.main);
      }
    }
  }

  lemma StepKeepsNumbers(cfg: Config, s: State, step: Step)
    requires Allowed(s, step) && IdsKnown(cfg, s) && UniqueNumbers(s.builds)
    ensures UniqueNumbers(Next(cfg, s, step).builds)
  {
    if Creates(cfg, s, step) {
      hide Created;
      CreationKeepsNumbers(cfg, s, step);
    } else {
      StepEvolves(cfg, s, step);
      NoNewRow(cfg, s, step);
    }
  }

  lemma NoNewRow(cfg: Config, s: State, step: Step)
    requires !Creates(cfg, s, step)
    ensures Next(cfg, s, step).builds.Keys <= s.builds.Keys
  {
  }

  // ----- limits

  /** Limits survive whenever no build starts. */
  lemma LimitsShrink(cfg: Config, b: Builds, c: Builds)
    requires Limits(cfg, b)
    requires forall id :: IsRunning(c, id) ==> IsRunning(b, id) && c[id].job == b[id].job
    ensures Limits(cfg, c)
  {
    forall j | j in cfg && cfg[j].concurrency > 0 ensures RunningOf(c, j) <= cfg[j].concurrency {
      assert forall id :: id in Running(c, j) ==> IsRunning(c, id);
      SubsetSize(Running(c, j), Running(b, j));
      RunningCounted(b, j);
      RunningCounted(c, j);
    }
  }

  /** What starting one more build does to the counts and to the running builds. */
  lemma OneMoreRuns(cfg: Config, b: Builds, id: BuildId)
    requires id in b && b[id].status != Started
    ensures var c := SetStatus(b, id, Started);
      && (forall k :: RunningOf(c, k) == RunningOf(b, k) + if k == b[id].job then 1 else 0)
      && (forall x :: IsRunning(c, x) <==> IsRunning(b, x) || x == id)
      && (forall x :: x in b ==> c[x].job == b[x].job) && c.Keys == b.Keys
  {
    forall k { RunningGrows(b, id, k); }
    hide RunningOf;
  }

  lemma RunningGrows(b: Builds, id: BuildId, k: JobKey)
    requires id in b && b[id].status != Started
    ensures RunningOf(SetStatus(b, id, Started), k) == RunningOf(b, k) + if k == b[id].job then 1 else 0
  {
    var c := SetStatus(b, id, Started);
    RunningCounted(b, k);
    RunningCounted(c, k);
    assert id !in Running(b, k);
    if k == b[id].job { assert Running(c, k) == Running(b, k) + {id}; } else { assert Running(c, k) == Running(b, k); }
  }

  /** Starting one more build keeps the limits exactly when it fits. */
  lemma LimitsGrow(cfg: Config, b: Builds, id: BuildId)
    requires Limits(cfg, b) && id in b && b[id].status != Started && b[id].job in cfg
    requires forall x :: x in b ==> b[x].job in cfg
    ensures Limits(cfg, SetStatus(b, id, Started)) <==> Fits(cfg, b, b[id].job)
  {
    var c, j := SetStatus(b, id, Started), b[id].job;
    OneMoreRuns(cfg, b, id);
    RunningCounted(b, j);
    SerialGrows(cfg, b, id, c);
    hide SetStatus, SerialKept, Rivals, Running, RunningOf;
  }

  lemma SerialGrows(cfg: Config, b: Builds, id: BuildId, c: Builds)
    requires SerialKept(cfg, b) && id in b && b[id].job in cfg && b[id].status != Started
    requires forall x :: x in b ==> b[x].job in cfg
    requires c.Keys == b.Keys && (forall x :: x in b ==> c[x].job == b[x].job)
    requires forall x :: IsRunning(c, x) <==> IsRunning(b, x) || x == id
    ensures SerialKept(cfg, c) <==> Rivals(cfg, b, b[id].job) == {}
  {
    var j := b[id].job;
    if Rivals(cfg, b, j) != {} {
      var r :| r in Rivals(cfg, b, j);
      assert IsRunning(b, r) && IsRunning(c, r) && IsRunning(c, id);
    } else {
      forall r | IsRunning(b, r) && b[r].job != j && b[r].job.pipeline == j.pipeline
        ensures cfg[b[r].job].serialGroups * cfg[j].serialGroups == {}
      {
        assert r !in Rivals(cfg, b, j);
      }
    }
  }

  lemma StepKeepsLimits(cfg: Config, s: State, step: Step)
    requires Allowed(s, step) && IdsKnown(cfg, s) && Limits(cfg, s.builds)
    ensures Limits(cfg, Next(cfg, s, step).builds)
  {
    var t := Next(cfg, s, step);
    if step.StartPending? && MayStart(cfg, s, step.j, step.id) {
      LimitsGrow(cfg, s.builds, step.id);
    } else {
      hide Next, Limits, Allowed, IdsKnown;
      StepEvolves(cfg, s, step);
      forall id | IsRunning(t.builds, id) ensures IsRunning(s.builds, id) && t.builds[id].job == s.builds[id].job {
        NoneStarts(cfg, s, step, id);
        assert RowEvolves(s, step, t, id);
      }
      LimitsShrink(cfg, s.builds, t.builds);
    }
  }

  lemma NoneStarts(cfg: Config, s: State, step: Step, id: BuildId)
    requires Allowed(s, step) && IdsKnown(cfg, s) && IsRunning(Next(cfg, s, step).builds, id)
    requires !(step.StartPending? && MayStart(cfg, s, step.j, step.id))
    ensures IsRunning(s.builds, id)
  {
  }

  // ----- interruptible jobs

  lemma CreationKeepsOnlyNewest(cfg: Config, s: State, step: Step)
    requires OnlyNewest(cfg, s.builds) && Creates(cfg, s, step) && Allowed(s, step)
    ensures OnlyNewest(cfg, Created(cfg, s, step).builds)
  {
    hide FirstNumber, RetryNumber;
    var t := Created(cfg, s, step).builds;
    forall a | IsActive(t, a) && a != step.newId
      ensures IsActive(s.builds, a) && t[a].job == s.builds[a].job
      ensures t[a].job == step.j ==> !cfg[step.j].interruptible
    {
    }
  }

  lemma StepKeepsOnlyNewest(cfg: Config, s: State, step: Step)
    requires Allowed(s, step) && IdsKnown(cfg, s) && OnlyNewest(cfg, s.builds)
    ensures OnlyNewest(cfg, Next(cfg, s, step).builds)
  {
    if Creates(cfg, s, step) {
      hide Created, OnlyNewest;
      CreationKeepsOnlyNewest(cfg, s, step);
    } else {
      hide Next, OnlyNewest, IdsKnown, Allowed;
      NoNewRow(cfg, s, step);
      StepEvolves(cfg, s, step);
      NoNewActive(cfg, s, step, Next(cfg, s, step));
    }
  }

  lemma NoNewActive(cfg: Config, s: State, step: Step, t: State)
    requires OnlyNewest(cfg, s.builds) && Evolves(s, step, t) && t.builds.Keys <= s.builds.Keys
    ensures OnlyNewest(cfg, t.builds)
  {
    forall a | IsActive(t.builds, a) ensures IsActive(s.builds, a) && t.builds[a].job == s.builds[a].job {
      assert RowEvolves(s, step, t, a);
    }
  }

  // ----- approval gates

  lemma ApproveKeepsGate(cfg: Config, s: State, id: BuildId, user: string)
    requires GateKept(cfg, s)
    ensures GateKept(cfg, Approve(cfg, s, id, user))
  {
    var t := Approve(cfg, s, id, user);
    forall x | x in t.builds ensures GateLets(cfg, t, x, t.builds[x].status) {
      assert x in s.builds ==> GateLets(cfg, s, x, s.builds[x].status);
      if x == id && t != s {
        var b, c := BallotOf(s, id), BallotOf(t, id);
        assert c == b[user := Approved];
        assert user in Approvers(c) && Approvers(c) != {};
      }
    }
  }

  lemma RejectKeepsGate(cfg: Config, s: State, id: BuildId, user: string, message: string)
    requires GateKept(cfg, s)
    ensures GateKept(cfg, Reject(s, id, user, message))
  {
    var t := Reject(s, id, user, message);
    forall x | x in t.builds ensures GateLets(cfg, t, x, t.builds[x].status) {
      assert x in s.builds ==> GateLets(cfg, s, x, s.builds[x].status);
    }
  }

  lemma CreationKeepsGate(cfg: Config, s: State, step: Step)
    requires IdsKnown(cfg, s) && GateKept(cfg, s) && Creates(cfg, s, step) && Allowed(s, step)
    ensures GateKept(cfg, Created(cfg, s, step))
  {
    hide FirstNumber;
    var t := Created(cfg, s, step);
    forall x | x in t.builds ensures GateLets(cfg, t, x, t.builds[x].status) {
      assert x in s.builds ==> GateLets(cfg, s, x, s.builds[x].status);
    }
  }

  /** Apart from votes and new rows, nothing gets a row past its gate. */
  lemma GatePassedBefore(cfg: Config, s: State, step: Step, id: BuildId)
    requires Allowed(s, step) && !Creates(cfg, s, step) && !Votes(step)
    requires id in Next(cfg, s, step).builds
    ensures var t := Next(cfg, s, step);
      && id in s.builds && BallotOf(t, id) == BallotOf(s, id)
      && t.builds[id].job == s.builds[id].job && t.builds[id].number == s.builds[id].number
      && (t.builds[id].status == WaitingForApproval ==> s.builds[id].status == WaitingForApproval)
      && (t.builds[id].status == Pending ==> s.builds[id].status == Pending)
      && (t.builds[id].status == Started ==> s.builds[id].status == Pending || s.builds[id].status == Started)
  {
  }

  lemma StepKeepsGate(cfg: Config, s: State, step: Step)
    requires Allowed(s, step) && IdsKnown(cfg, s) && GateKept(cfg, s)
    ensures GateKept(cfg, Next(cfg, s, step))
  {
    if Creates(cfg, s, step) {
      hide Created, GateKept;
      CreationKeepsGate(cfg, s, step);
    } else if Votes(step) {
      hide Approve, Reject, GateKept;
      if step.ApproveBuild? { ApproveKeepsGate(cfg, s, step.id, step.user); }
      else { RejectKeepsGate(cfg, s, step.id, step.user, step.message); }
    } else {
      hide Next;
      var t := Next(cfg, s, step);
      forall x | x in t.builds ensures GateLets(cfg, t, x, t.builds[x].status) {
        GatePassedBefore(cfg, s, step, x);
        assert GateLets(cfg, s, x, s.builds[x].status);
      }
    }
  }

  // ----- hand-out

  /** The call hands build `id` to a worker. */
  ghost predicate Hands(cfg: Config, s: State, step: Step, id: BuildId) {
    step.StartPending? && step.id == id && MayStart(cfg, s, step.j, id)
  }

  lemma HandedBy(cfg: Config, s: State, step: Step)
    ensures Next(cfg, s, step).handed ==
      if step.StartPending? && Hands(cfg, s, step, step.id) then s.handed + [step.id] else s.handed
  {
    hide Fits;
  }

  lemma StepKeepsRunningHanded(cfg: Config, s: State, step: Step)
    requires Allowed(s, step) && IdsKnown(cfg, s) && RunningHanded(s)
    ensures RunningHanded(Next(cfg, s, step))
  {
    HandedBy(cfg, s, step);
    var t := Next(cfg, s, step);
    forall id | IsRunning(t.builds, id) ensures id in t.handed {
      if !(step.StartPending? && MayStart(cfg, s, step.j, step.id)) { NoneStarts(cfg, s, step, id); }
      else { assert id == step.id || IsRunning(s.builds, id); }
    }
  }

  // ----- every state of every run

  lemma StepKeepsInv(cfg: Config, s: State, step: Step)
    requires Inv(cfg, s) && Allowed(s, step)
    ensures Inv(cfg, Next(cfg, s, step))
  {
    hide Next, Limits, OnlyNewest, GateKept, RunningHanded, IdsKnown, UniqueNumbers, Allowed;
    StepEvolves(cfg, s, step);
    StepKeepsNumbers(cfg, s, step);
    StepKeepsLimits(cfg, s, step);
    StepKeepsOnlyNewest(cfg, s, step);
    StepKeepsGate(cfg, s, step);
    StepKeepsRunningHanded(cfg, s, step);
  }

  /** Safety over whole runs, whatever the interleaving and however the database
      numbers its rows: concurrency and serial groups are respected, only the newest
      build of an interruptible job is alive, gated builds run only when cleared,
      and only builds handed to a worker run. */
  lemma {:induction false} EveryRunIsSafe(cfg: Config, states: seq<State>, steps: seq<Step>, i: nat)
    requires Run(cfg, states, steps) && i < |states|
    ensures Inv(cfg, states[i])
    decreases i
  {
    if i == 0 {
      EmptyIsSafe(cfg, states[0]);
    } else {
      EveryRunIsSafe(cfg, states, steps, i - 1);
      assert StepAt(cfg, states, steps, i - 1);
      StepKeepsInv(cfg, states[i - 1], steps[i - 1]);
    }
  }

  lemma EmptyIsSafe(cfg: Config, s: State)
    requires s.builds == map[] && s.votes == map[] && s.handed == []
    ensures Inv(cfg, s)
  {
    forall j ensures Running(s.builds, j) == {} {}
  }

  /** Two consecutive states of a run. */
  lemma StepInRun(cfg: Config, states: seq<State>, steps: seq<Step>, k: nat)
    requires Run(cfg, states, steps) && k < |steps|
    ensures Evolves(states[k], steps[k], states[k + 1])
    ensures states[k + 1].handed ==
      if steps[k].StartPending? && Hands(cfg, states[k], steps[k], steps[k].id) then states[k].handed + [steps[k].id]
      else states[k].handed
  {
    hide Next, Limits, OnlyNewest, GateKept, RunningHanded, Allowed, IdsKnown, UniqueNumbers, Evolves, Hands;
    EveryRunIsSafe(cfg, states, steps, k);
    assert StepAt(cfg, states, steps, k);
    StepEvolves(cfg, states[k], steps[k]);
    HandedBy(cfg, states[k], steps[k]);
  }

  lemma RowInRun(cfg: Config, states: seq<State>, steps: seq<Step>, k: nat, id: BuildId)
    requires Run(cfg, states, steps) && k < |steps|
    ensures RowEvolves(states[k], steps[k], states[k + 1], id)
  {
    hide Run, Hands, RowEvolves;
    StepInRun(cfg, states, steps, k);
  }

  ghost predicate NotDeleted(steps: seq<Step>, id: BuildId, p: nat, q: nat) {
    forall r :: p <= r < q && r < |steps| ==> steps[r] != DeleteBuild(id)
  }

  /** The row is still there; if it was out of the queue it still is, and if it was
      cancelled it still is. */
  ghost predicate Settled(s: State, t: State, id: BuildId) {
    id in s.builds ==>
      && id in t.builds
      && (!Queued(s.builds[id].status) ==> !Queued(t.builds[id].status))
      && (s.builds[id].status == Cancelled ==> t.builds[id].status == Cancelled)
  }

  lemma RowMoves(s: State, step: Step, t: State, id: BuildId)
    requires RowEvolves(s, step, t, id) && step != DeleteBuild(id)
    ensures Settled(s, t, id)
  {
  }

  lemma SettledOn(s: State, t: State, u: State, id: BuildId)
    requires Settled(s, t, id) && Settled(t, u, id)
    ensures Settled(s, u, id)
  {
  }

  /** A row that is not deleted stays; once out of the queue it never gets back, and
      once cancelled it stays cancelled, in spite of late worker reports. */
  lemma {:induction false} RowStays(cfg: Config, states: seq<State>, steps: seq<Step>, p: nat, q: nat, id: BuildId)
    requires Run(cfg, states, steps) && p <= q < |states| && NotDeleted(steps, id, p, q)
    ensures Settled(states[p], states[q], id)
    decreases q
  {
    assert |states| == |steps| + 1;
    hide Run;
    if p < q {
      hide Settled;
      RowStays(cfg, states, steps, p, q - 1, id);
      assert steps[q - 1] != DeleteBuild(id);
      StepSettles(cfg, states, steps, q - 1, id);
      SettledOn(states[p], states[q - 1], states[q], id);
    }
  }

  lemma StepSettles(cfg: Config, states: seq<State>, steps: seq<Step>, k: nat, id: BuildId)
    requires Run(cfg, states, steps) && k < |steps| && steps[k] != DeleteBuild(id)
    ensures Settled(states[k], states[k + 1], id)
  {
    RowInRun(cfg, states, steps, k, id);
    hide Run;
    RowMoves(states[k], steps[k], states[k + 1], id);
  }

  // ----- handed out twice

  /** Whatever the database does with ids: a build id is handed out again only after
      its row was deleted in between. */
  lemma HandedAgainOnlyAfterDeletion(cfg: Config, states: seq<State>, steps: seq<Step>, p: nat, q: nat, id: BuildId)
    requires Run(cfg, states, steps) && p < q < |steps|
    requires Hands(cfg, states[p], steps[p], id) && Hands(cfg, states[q], steps[q], id)
    ensures exists r :: p < r < q && steps[r] == DeleteBuild(id)
  {
    if NotDeleted(steps, id, p + 1, q) {
      assert StepAt(cfg, states, steps, p);
      assert states[p + 1].builds[id].status == Started;
      RowStays(cfg, states, steps, p + 1, q, id);
    }
  }

  lemma {:induction false} HandedGrows(cfg: Config, states: seq<State>, steps: seq<Step>, p: nat, q: nat)
    requires Run(cfg, states, steps) && p <= q < |states|
    ensures states[p].handed <= states[q].handed
    decreases q
  {
    if p < q {
      hide Evolves, Hands;
      HandedGrows(cfg, states, steps, p, q - 1);
      StepInRun(cfg, states, steps, q - 1);
    }
  }

  /** The step that made entry `a` of the log. */
  lemma {:induction false} EntryOf(cfg: Config, states: seq<State>, steps: seq<Step>, n: nat, a: nat) returns (p: nat)
    requires Run(cfg, states, steps) && n < |states| && a < |states[n].handed|
    ensures p < n && |states[p].handed| == a && Hands(cfg, states[p], steps[p], states[n].handed[a])
    decreases n
  {
    hide Evolves, Hands;
    StepInRun(cfg, states, steps, n - 1);
    if a < |states[n - 1].handed| { p := EntryOf(cfg, states, steps, n - 1, a); } else { p := n - 1; }
  }

  /** The call that created the row, and since then nobody deleted it. */
  lemma {:induction false} BirthOf(cfg: Config, states: seq<State>, steps: seq<Step>, q: nat, id: BuildId)
    returns (i: nat)
    requires Run(cfg, states, steps) && q < |states| && id in states[q].builds
    ensures i < q && Inserts(steps[i]) && steps[i].newId == id && id !in states[i].builds && NotDeleted(steps, id, i, q)
    decreases q
  {
    RowInRun(cfg, states, steps, q - 1, id);
    hide Next, Allowed;
    if id in states[q - 1].builds { i := BirthOf(cfg, states, steps, q - 1, id); } else { i := q - 1; }
  }

  /** Call i creates a row under an id that had been handed out, and call k hands
      that row out. */
  ghost predicate HandsReused(cfg: Config, states: seq<State>, steps: seq<Step>, i: nat, k: nat) {
    && i < k < |steps| < |states| && Inserts(steps[i]) && steps[i].newId !in states[i].builds
    && steps[i].newId in states[i].handed
    && Hands(cfg, states[k], steps[k], steps[i].newId) && NotDeleted(steps, steps[i].newId, i, k)
  }

  lemma ReuseHandsTwice(cfg: Config, states: seq<State>, steps: seq<Step>, i: nat, k: nat)
    requires Run(cfg, states, steps) && HandsReused(cfg, states, steps, i, k)
    ensures !Distinct(states[|steps|].handed)
  {
    var id := steps[i].newId;
    HandedGrows(cfg, states, steps, i, k);
    StepInRun(cfg, states, steps, k);
    HandedGrows(cfg, states, steps, k + 1, |steps|);
    hide Run, Evolves, Hands;
    var before, all := states[k].handed, states[|steps|].handed;
    var a :| 0 <= a < |states[i].handed| && states[i].handed[a] == id;
    assert states[k + 1].handed[|before|] == id && before[a] == id;
    assert all[a] == all[|before|];
  }

  lemma TwiceMeansReuse(cfg: Config, states: seq<State>, steps: seq<Step>) returns (i: nat, k: nat)
    requires Run(cfg, states, steps) && !Distinct(states[|steps|].handed)
    ensures HandsReused(cfg, states, steps, i, k)
  {
    var n := |steps|;
    var a, b :| 0 <= a < b < |states[n].handed| && states[n].handed[a] == states[n].handed[b];
    var id := states[n].handed[a];
    var p := EntryOf(cfg, states, steps, n, a);
    k := EntryOf(cfg, states, steps, n, b);
    if k <= p { HandedGrows(cfg, states, steps, k, p); }
    i := BirthOf(cfg, states, steps, k, id);
    var r: nat :| p < r < k && steps[r] == DeleteBuild(id) by {
      HandedAgainOnlyAfterDeletion(cfg, states, steps, p, k, id);
    }
    assert r < i;
    StepInRun(cfg, states, steps, p);
    HandedGrows(cfg, states, steps, p + 1, i);
    assert id == states[p + 1].handed[|states[p].handed|];
  }

  /** A run hands some id out twice exactly when it creates a build under an id it
      had already handed out, and hands that build out. */
  lemma HandedTwiceExactlyWhen(cfg: Config, states: seq<State>, steps: seq<Step>)
    requires Run(cfg, states, steps)
    ensures !Distinct(states[|steps|].handed) <==> exists i: nat, k: nat :: HandsReused(cfg, states, steps, i, k)
  {
    hide HandsReused, Distinct;
    if !Distinct(states[|steps|].handed) {
      var i, k := TwiceMeansReuse(cfg, states, steps);
    }
    if i: nat, k: nat :| HandsReused(cfg, states, steps, i, k) { ReuseHandsTwice(cfg, states, steps, i, k); }
  }

  /** Both rules give ids above all rows present. */
  lemma RulesGiveFreshIds(rule: IdRule, cfg: Config, s: State, step: Step)
    requires IdsKnown(cfg, s) && Obeys(rule, s, step) && Inserts(step)
    ensures forall id :: id in s.builds ==> id < step.newId
  {
  }

  /** So every creating call keeps the invariant on either database. */
  lemma CreationKeepsInv(rule: IdRule, cfg: Config, s: State, step: Step)
    requires Inv(cfg, s) && Inserts(step) && Obeys(rule, s, step)
    ensures Inv(cfg, Next(cfg, s, step))
  {
    hide Next, Limits, OnlyNewest, GateKept, RunningHanded, UniqueNumbers, NewId;
    RulesGiveFreshIds(rule, cfg, s, step);
    hide IdsKnown;
    StepKeepsInv(cfg, s, step);
  }

  /** Where ids are counted, nothing is ever handed out twice ... */
  lemma CountedIdsAreHandedOnce(cfg: Config, states: seq<State>, steps: seq<Step>)
    requires RunUnder(Counter, cfg, states, steps)
    ensures Distinct(states[|steps|].handed)
  {
    hide Distinct;
    assert forall i :: 0 <= i < |steps| ==> Obeys(Counter, states[i], steps[i]);
    HandedTwiceExactlyWhen(cfg, states, steps);
    if i: nat, k: nat :| HandsReused(cfg, states, steps, i, k) {
      EveryRunIsSafe(cfg, states, steps, i);
    }
  }

  /** ... and a deleted id never comes back. */
  lemma {:induction false} CountedIdsStayDeleted(cfg: Config, states: seq<State>, steps: seq<Step>, i: nat, k: nat,
                                                 id: BuildId)
    requires RunUnder(Counter, cfg, states, steps) && i <= k < |states|
    requires id < states[i].nextId && id !in states[i].builds
    ensures id < states[k].nextId && id !in states[k].builds
    decreases k
  {
    if i < k {
      CountedIdsStayDeleted(cfg, states, steps, i, k - 1, id);
      hide Next, Allowed;
      RowInRun(cfg, states, steps, k - 1, id);
      IdsStayBelow(cfg, states, steps, k - 1, k);
      assert Obeys(Counter, states[k - 1], steps[k - 1]);
    }
  }

  /** Where ids are counted, an id stands for a build of one job for good: what a
      worker looked up under a job is not started under another one later. */
  lemma {:induction false} CountedRowsKeepTheirJob(cfg: Config, states: seq<State>, steps: seq<Step>, i: nat, k: nat,
                                                   id: BuildId)
    requires RunUnder(Counter, cfg, states, steps) && i <= k < |states| && id in states[i].builds
    ensures id in states[k].builds ==> states[k].builds[id].job == states[i].builds[id].job
    decreases k
  {
    if i < k {
      RowInRun(cfg, states, steps, k - 1, id);
      hide Next, Allowed, Obeys, Forward;
      CountedRowsKeepTheirJob(cfg, states, steps, i, k - 1, id);
      if id !in states[k - 1].builds {
        IdIsBelow(cfg, states, steps, i, id);
        IdsStayBelow(cfg, states, steps, i, k - 1);
        CountedIdsStayDeleted(cfg, states, steps, k - 1, k, id);
      }
    }
  }

  lemma IdIsBelow(cfg: Config, states: seq<State>, steps: seq<Step>, i: nat, id: BuildId)
    requires Run(cfg, states, steps) && i < |states| && id in states[i].builds
    ensures id < states[i].nextId
  {
    hide Run, Limits, OnlyNewest, GateKept, RunningHanded, UniqueNumbers;
    EveryRunIsSafe(cfg, states, steps, i);
  }

  lemma {:induction false} IdsStayBelow(cfg: Config, states: seq<State>, steps: seq<Step>, i: nat, k: nat)
    requires Run(cfg, states, steps) && i <= k < |states|
    ensures states[i].nextId <= states[k].nextId
    decreases k
  {
    if i < k {
      hide RowEvolves;
      IdsStayBelow(cfg, states, steps, i, k - 1);
      StepInRun(cfg, states, steps, k - 1);
    }
  }
}
