/** Where the scheduler depends on its callers and on its database: the exact
    conditions, and runs that reach the failing cases. */
module SchedulerEdges {
  import opened Scheduler
  import opened SchedulerSafety

  // ----- calls outside the callers' discipline

  /** StartPendingBuild checks the limits of the job it is told about, while the
      row it starts is picked by id alone.  It keeps the limits exactly when the
      build that would start also fits under its own job. */
  lemma StartKeepsLimitsExactlyWhen(cfg: Config, s: State, j: JobKey, id: BuildId)
    requires Inv(cfg, s)
    ensures Limits(cfg, Next(cfg, s, StartPending(j, id)).builds) <==>
      (MayStart(cfg, s, j, id) ==> Fits(cfg, s.builds, s.builds[id].job))
  {
    hide Limits, Fits;
    if MayStart(cfg, s, j, id) { LimitsGrow(cfg, s.builds, id); }
  }

  /** The report changes the row's status. */
  ghost predicate Lands(s: State, id: BuildId, st: Status) {
    id in s.builds && s.builds[id].status != Cancelled && s.builds[id].status != st
  }

  lemma UpdateKeepsLimitsExactlyWhen(cfg: Config, s: State, id: BuildId, st: Status)
    requires Inv(cfg, s)
    ensures Limits(cfg, Next(cfg, s, UpdateBuild(id, st)).builds) <==>
      (Lands(s, id, st) && st == Started ==> Fits(cfg, s.builds, s.builds[id].job))
  {
    var t := Next(cfg, s, UpdateBuild(id, st));
    if Lands(s, id, st) && st == Started {
      hide Limits, Fits;
      LimitsGrow(cfg, s.builds, id);
    } else {
      forall x | IsRunning(t.builds, x) ensures IsRunning(s.builds, x) && t.builds[x].job == s.builds[x].job {}
      LimitsShrink(cfg, s.builds, t.builds);
    }
  }

  /** Another build of the same interruptible job is active. */
  ghost predicate Supersedes(cfg: Config, s: State, id: BuildId)
    requires id in s.builds
  {
    exists b :: b != id && IsActive(s.builds, b) && Superseding(cfg, s.builds[id].job, s.builds[b].job)
  }

  lemma UpdateKeepsOnlyNewestExactlyWhen(cfg: Config, s: State, id: BuildId, st: Status)
    requires Inv(cfg, s)
    ensures OnlyNewest(cfg, Next(cfg, s, UpdateBuild(id, st)).builds) <==>
      (Lands(s, id, st) && Active(st) ==> !Supersedes(cfg, s, id))
  {
    hide Limits, GateKept;
    var t := Next(cfg, s, UpdateBuild(id, st));
    forall x ensures IsActive(t.builds, x) <==>
      || (IsActive(s.builds, x) && !(x == id && Lands(s, id, st) && !Active(st)))
      || (x == id && Lands(s, id, st) && Active(st)) {}
    forall x | x in t.builds ensures t.builds[x].job == s.builds[x].job {}
    if Lands(s, id, st) && Active(st) && Supersedes(cfg, s, id) {
      var b :| b != id && IsActive(s.builds, b) && Superseding(cfg, s.builds[id].job, s.builds[b].job);
      assert IsActive(t.builds, b) && IsActive(t.builds, id);
    }
  }

  lemma UpdateKeepsGateExactlyWhen(cfg: Config, s: State, id: BuildId, st: Status)
    requires Inv(cfg, s)
    ensures GateKept(cfg, Next(cfg, s, UpdateBuild(id, st))) <==> (Lands(s, id, st) ==> GateLets(cfg, s, id, st))
  {
    hide Limits, OnlyNewest, Cleared, NobodyRejected;
    var t := Next(cfg, s, UpdateBuild(id, st));
    forall x | x in t.builds && x != id ensures GateLets(cfg, t, x, t.builds[x].status) {
      assert GateLets(cfg, s, x, s.builds[x].status);
    }
    if id in t.builds {
      assert GateLets(cfg, s, id, s.builds[id].status);
      assert GateLets(cfg, t, id, t.builds[id].status) <==> (Lands(s, id, st) ==> GateLets(cfg, s, id, st));
    }
  }

  /** What a report must meet: one that a build runs, that it was handed out and
      fits; one that it is active, that no newer build replaced it; and the gate. */
  ghost predicate Tolerable(cfg: Config, s: State, id: BuildId, st: Status)
    requires Inv(cfg, s)
  {
    Lands(s, id, st) ==>
      && (st == Started ==> id in s.handed && Fits(cfg, s.builds, s.builds[id].job))
      && (Active(st) ==> !Supersedes(cfg, s, id))
      && GateLets(cfg, s, id, st)
  }

  /** UpdateJobBuild guards Cancelled rows only: an arbitrary report keeps the
      invariant exactly when it is tolerable. */
  lemma UpdateKeepsInvExactlyWhen(cfg: Config, s: State, id: BuildId, st: Status)
    requires Inv(cfg, s)
    ensures Inv(cfg, Next(cfg, s, UpdateBuild(id, st))) <==> Tolerable(cfg, s, id, st)
  {
    UpdateKeepsRest(cfg, s, id, st);
    UpdateKeepsLimitsExactlyWhen(cfg, s, id, st);
    UpdateKeepsOnlyNewestExactlyWhen(cfg, s, id, st);
    UpdateKeepsGateExactlyWhen(cfg, s, id, st);
    hide Next, Limits, OnlyNewest, GateKept, RunningHanded, IdsKnown, UniqueNumbers, Fits, Supersedes, GateLets;
  }

  lemma UpdateKeepsRest(cfg: Config, s: State, id: BuildId, st: Status)
    requires Inv(cfg, s)
    ensures var t := Next(cfg, s, UpdateBuild(id, st));
      && IdsKnown(cfg, t) && UniqueNumbers(t.builds)
      && (RunningHanded(t) <==> (Lands(s, id, st) && st == Started ==> id in s.handed))
  {
    hide Limits, OnlyNewest, GateKept;
    var t := Next(cfg, s, UpdateBuild(id, st));
    forall x ensures IsRunning(t.builds, x) <==>
      (IsRunning(s.builds, x) && !(x == id && Lands(s, id, st))) || (x == id && Lands(s, id, st) && st == Started) {}
  }

  /** An arbitrary report moves its row forward, and so never back into the queue,
      exactly when the row is cancelled or the new status lies ahead of the old one.
      The invariant alone does not ask for that. */
  lemma ReportMovesForwardExactlyWhen(cfg: Config, s: State, id: BuildId, st: Status)
    ensures Evolves(s, UpdateBuild(id, st), Next(cfg, s, UpdateBuild(id, st))) <==>
      (id in s.builds && s.builds[id].status != Cancelled ==> Forward(s.builds[id].status, st))
  {
    var step := UpdateBuild(id, st);
    var t := Next(cfg, s, step);
    forall x | x != id ensures RowEvolves(s, step, t, x) {}
    assert RowEvolves(s, step, t, id) <==>
      (id in s.builds && s.builds[id].status != Cancelled ==> Forward(s.builds[id].status, st));
  }

  // ----- runs that get there

  const A := JobKey("p", "a")
  const B := JobKey("p", "b")

  /** Job "a" may run one build at a time, job "b" any number. */
  ghost const EXAMPLE: Config :=
    map[A := JobConfig(1, {}, "", 0, false, false), B := JobConfig(0, {}, "", 0, false, false)]

  ghost function One(st: Status): Builds { map[1 := Build(A, st, Number(1, 0))] }

  ghost function Two(first: Status, second: Status): Builds {
    map[1 := Build(A, first, Number(1, 0)), 2 := Build(A, second, Number(2, 0))]
  }

  ghost function At(builds: Builds, nextId: BuildId, handed: seq<BuildId>): State {
    State(builds, nextId, map[], {}, handed)
  }

  /** A call that may be made in `s`, and where it leads. */
  ghost predicate Moves(rule: IdRule, s: State, step: Step, t: State) {
    Allowed(s, step) && Obeys(rule, s, step) && t == Next(EXAMPLE, s, step)
  }

  /** A run that ends in a given state. */
  ghost predicate Reaches(rule: IdRule, states: seq<State>, steps: seq<Step>, s: State) {
    RunUnder(rule, EXAMPLE, states, steps) && states[|steps|] == s
  }

  lemma OneMore(rule: IdRule, states: seq<State>, steps: seq<Step>, s: State, step: Step, t: State)
    returns (more: seq<State>, all: seq<Step>)
    requires Reaches(rule, states, steps, s) && Moves(rule, s, step, t)
    ensures Reaches(rule, more, all, t) && more == states + [t] && all == steps + [step]
  {
    hide Allowed, Obeys, Next;
    more, all := states + [t], steps + [step];
    forall i | 0 <= i < |all|
      ensures Allowed(more[i], all[i]) && Obeys(rule, more[i], all[i]) && more[i + 1] == Next(EXAMPLE, more[i], all[i])
    {
      if i < |steps| {
        assert StepAt(EXAMPLE, states, steps, i);
        assert more[i] == states[i] && more[i + 1] == states[i + 1] && all[i] == steps[i];
      }
    }
    assert forall i :: 0 <= i < |all| ==> StepAt(EXAMPLE, more, all, i);
  }

  lemma Begin(rule: IdRule) returns (states: seq<State>, steps: seq<Step>)
    ensures Reaches(rule, states, steps, At(map[], 1, [])) && |states| == 1 && steps == []
  {
    states, steps := [At(map[], 1, [])], [];
  }

  lemma CreateFirst(rule: IdRule, nextId: BuildId, handed: seq<BuildId>)
    requires nextId == 1 || (nextId == 2 && rule == GreatestPlusOne)
    ensures Moves(rule, At(map[], nextId, handed), CreateJobBuild(A, 1), At(One(Pending), 2, handed))
  {
    assert Mains(map[], A) == {};
    assert At(map[], nextId, handed).builds.Keys == {};
  }

  lemma FollowingOne()
    ensures Following({1}) == 2 && forall st :: Mains(One(st), A) == {1} && One(st).Keys == {1}
  {
    forall st ensures Mains(One(st), A) == {1} && One(st).Keys == {1} { assert One(st)[1].number.main == 1; }
  }

  lemma CreateSecond(rule: IdRule, first: Status, nextId: BuildId, handed: seq<BuildId>)
    requires nextId == 2 || (nextId == 3 && rule == GreatestPlusOne)
    ensures Moves(rule, At(One(first), nextId, handed), CreateJobBuild(A, 2), At(Two(first, Pending), 3, handed))
  {
    FollowingOne();
    hide Following, Mains;
    var s, step := At(One(first), nextId, handed), CreateJobBuild(A, 2);
    assert Creates(EXAMPLE, s, step) && FirstNumber(s.builds, A) == Number(2, 0);
    assert Created(EXAMPLE, s, step).builds == Two(first, Pending);
  }

  lemma StartIdle(rule: IdRule, builds: Builds, nextId: BuildId, handed: seq<BuildId>, id: BuildId)
    requires id in builds && builds[id].job == A && builds[id].status == Pending && forall x :: !IsRunning(builds, x)
    ensures Moves(rule, At(builds, nextId, handed), StartPending(A, id),
                  At(SetStatus(builds, id, Started), nextId, handed + [id]))
  {
    assert forall x :: x in builds && builds[x].status == Started ==> IsRunning(builds, x);
    assert Running(builds, A) == {} && Rivals(EXAMPLE, builds, A) == {};
  }

  lemma StartFirst(rule: IdRule, handed: seq<BuildId>)
    ensures Moves(rule, At(One(Pending), 2, handed), StartPending(A, 1), At(One(Started), 2, handed + [1]))
  {
    StartIdle(rule, One(Pending), 2, handed, 1);
    hide Moves;
    assert SetStatus(One(Pending), 1, Started) == One(Started);
  }

  lemma StartSecond(rule: IdRule, handed: seq<BuildId>)
    ensures Moves(rule, At(Two(Failed, Pending), 3, handed), StartPending(A, 2),
                  At(Two(Failed, Started), 3, handed + [2]))
  {
    StartIdle(rule, Two(Failed, Pending), 3, handed, 2);
    hide Moves;
    assert SetStatus(Two(Failed, Pending), 2, Started) == Two(Failed, Started);
  }

  lemma DeleteFirst(rule: IdRule, handed: seq<BuildId>)
    ensures Moves(rule, At(One(Started), 2, handed), DeleteBuild(1), At(map[], 2, handed))
  {
    assert One(Started) - {1} == map[];
  }

  lemma Recover(rule: IdRule, handed: seq<BuildId>)
    ensures Moves(rule, At(Two(Started, Pending), 3, handed), RecoverOrphans, At(Two(Failed, Pending), 3, handed))
  {
  }

  lemma RunningAndPending(rule: IdRule) returns (states: seq<State>, steps: seq<Step>)
    ensures Reaches(rule, states, steps, At(Two(Started, Pending), 3, [1]))
  {
    hide Reaches, Moves, One, Two, At;
    states, steps := Begin(rule);
    CreateFirst(rule, 1, []);
    states, steps := OneMore(rule, states, steps, At(map[], 1, []), CreateJobBuild(A, 1), At(One(Pending), 2, []));
    StartFirst(rule, []);
    assert [] + [1] == [1];
    states, steps := OneMore(rule, states, steps, At(One(Pending), 2, []), StartPending(A, 1),
                             At(One(Started), 2, [1]));
    CreateSecond(rule, Started, 2, [1]);
    states, steps := OneMore(rule, states, steps, At(One(Started), 2, [1]), CreateJobBuild(A, 2),
                             At(Two(Started, Pending), 3, [1]));
  }

  lemma FailedAndRunning(rule: IdRule) returns (states: seq<State>, steps: seq<Step>)
    ensures Reaches(rule, states, steps, At(Two(Failed, Started), 3, [1, 2]))
  {
    hide Reaches, Moves, Two, At;
    states, steps := RunningAndPending(rule);
    Recover(rule, [1]);
    states, steps := OneMore(rule, states, steps, At(Two(Started, Pending), 3, [1]), RecoverOrphans,
                             At(Two(Failed, Pending), 3, [1]));
    StartSecond(rule, [1]);
    assert [1] + [2] == [1, 2];
    states, steps := OneMore(rule, states, steps, At(Two(Failed, Pending), 3, [1]), StartPending(A, 2),
                             At(Two(Failed, Started), 3, [1, 2]));
  }

  lemma EndsSafely(rule: IdRule, states: seq<State>, steps: seq<Step>, s: State)
    requires Reaches(rule, states, steps, s)
    ensures RunUnder(rule, EXAMPLE, states, steps) && |states| == |steps| + 1 && states[|steps|] == s && Inv(EXAMPLE, s)
  {
    hide Inv, Next;
    EveryRunIsSafe(EXAMPLE, states, steps, |steps|);
  }

  lemma FullForA(b: Builds, id: BuildId)
    requires id in b && b[id].job == A && b[id].status == Started
    requires forall x :: x in b && x != id ==> b[x].job == A && b[x].status != Started
    ensures !Fits(EXAMPLE, b, A) && Fits(EXAMPLE, b, B)
  {
    assert Running(b, A) == {id} && Running(b, B) == {} && Rivals(EXAMPLE, b, B) == {};
  }

  /** Reached on every database: build 1 runs, build 2 waits.  Naming another job
      then starts a second build of a job limited to one. */
  lemma StartUnderAnotherJob(rule: IdRule) returns (states: seq<State>, steps: seq<Step>)
    ensures RunUnder(rule, EXAMPLE, states, steps)
    ensures !Limits(EXAMPLE, Next(EXAMPLE, states[|steps|], StartPending(B, 2)).builds)
  {
    hide Next, Inv, Limits, Fits, RunUnder;
    var s := At(Two(Started, Pending), 3, [1]);
    states, steps := RunningAndPending(rule);
    EndsSafely(rule, states, steps, s);
    FullForA(s.builds, 1);
    StartKeepsLimitsExactlyWhen(EXAMPLE, s, B, 2);
  }

  /** Reached on every database: build 1 was recovered as failed and build 2 runs.
      The worker that outlived the recovery then reports build 1 as running. */
  lemma ReportAfterRecovery(rule: IdRule) returns (states: seq<State>, steps: seq<Step>)
    ensures RunUnder(rule, EXAMPLE, states, steps)
    ensures !Limits(EXAMPLE, Next(EXAMPLE, states[|steps|], UpdateBuild(1, Started)).builds)
  {
    hide Next, Inv, Limits, Fits, RunUnder;
    var s := At(Two(Failed, Started), 3, [1, 2]);
    states, steps := FailedAndRunning(rule);
    EndsSafely(rule, states, steps, s);
    FullForA(s.builds, 2);
    UpdateKeepsLimitsExactlyWhen(EXAMPLE, s, 1, Started);
  }

  /** Where a new row takes the greatest id plus one, deleting the newest row frees
      its id: here build 1 is claimed, deleted by its worker, and the next build is
      claimed under the same id. */
  lemma FreedIdIsHandedOutAgain() returns (states: seq<State>, steps: seq<Step>)
    ensures RunUnder(GreatestPlusOne, EXAMPLE, states, steps) && states[|steps|].handed == [1, 1]
  {
    var rule := GreatestPlusOne;
    hide Reaches, Moves, One;
    states, steps := Begin(rule);
    CreateFirst(rule, 1, []);
    states, steps := OneMore(rule, states, steps, At(map[], 1, []), CreateJobBuild(A, 1), At(One(Pending), 2, []));
    StartFirst(rule, []);
    assert [] + [1] == [1];
    states, steps := OneMore(rule, states, steps, At(One(Pending), 2, []), StartPending(A, 1),
                             At(One(Started), 2, [1]));
    DeleteFirst(rule, [1]);
    states, steps := OneMore(rule, states, steps, At(One(Started), 2, [1]), DeleteBuild(1), At(map[], 2, [1]));
    CreateFirst(rule, 2, [1]);
    states, steps := OneMore(rule, states, steps, At(map[], 2, [1]), CreateJobBuild(A, 1), At(One(Pending), 2, [1]));
    StartFirst(rule, [1]);
    assert [1] + [1] == [1, 1];
    states, steps := OneMore(rule, states, steps, At(One(Pending), 2, [1]), StartPending(A, 1),
                             At(One(Started), 2, [1, 1]));
    EndsSafely(rule, states, steps, At(One(Started), 2, [1, 1]));
  }

  /** A report of Pending on a finished build is tolerable and still puts the build
      back into the queue: it is handed out again, and nothing was deleted. */
  lemma ReportedBackIntoTheQueue(rule: IdRule) returns (states: seq<State>, steps: seq<Step>)
    ensures RunUnder(rule, EXAMPLE, states, steps) && Inv(EXAMPLE, states[|steps|])
    ensures Tolerable(EXAMPLE, states[|steps|], 1, Pending)
    ensures var queued := Next(EXAMPLE, states[|steps|], UpdateBuild(1, Pending));
      Next(EXAMPLE, queued, StartPending(A, 1)).handed == [1, 1]
  {
    hide Reaches, Moves, Inv, Fits;
    states, steps := Begin(rule);
    CreateFirst(rule, 1, []);
    states, steps := OneMore(rule, states, steps, At(map[], 1, []), CreateJobBuild(A, 1), At(One(Pending), 2, []));
    StartFirst(rule, []);
    assert [] + [1] == [1];
    states, steps := OneMore(rule, states, steps, At(One(Pending), 2, []), StartPending(A, 1),
                             At(One(Started), 2, [1]));
    RecoverFirst(rule, [1]);
    states, steps := OneMore(rule, states, steps, At(One(Started), 2, [1]), RecoverOrphans, At(One(Failed), 2, [1]));
    EndsSafely(rule, states, steps, At(One(Failed), 2, [1]));
    BackInQueue(rule);
  }

  lemma RecoverFirst(rule: IdRule, handed: seq<BuildId>)
    ensures Moves(rule, At(One(Started), 2, handed), RecoverOrphans, At(One(Failed), 2, handed))
  {
  }

  lemma BackInQueue(rule: IdRule)
    ensures var s := At(One(Failed), 2, [1]);
      && (Inv(EXAMPLE, s) ==> Tolerable(EXAMPLE, s, 1, Pending))
      && Next(EXAMPLE, Next(EXAMPLE, s, UpdateBuild(1, Pending)), StartPending(A, 1)).handed == [1, 1]
  {
    var s := At(One(Failed), 2, [1]);
    assert !Supersedes(EXAMPLE, s, 1);
    assert Next(EXAMPLE, s, UpdateBuild(1, Pending)).builds == One(Pending);
    StartFirst(rule, [1]);
    assert [1] + [1] == [1, 1];
  }

  // ----- a lookup that goes stale

  ghost function Mixed(): Builds { One(Started)[2 := Build(B, Pending, Number(1, 0))] }

  lemma NoneOfOther()
    ensures FirstNumber(One(Started), B) == Number(1, 0) && One(Started).Keys == {1}
  {
    assert Mains(One(Started), B) == {};
  }

  lemma CreateOther(rule: IdRule, handed: seq<BuildId>)
    ensures Moves(rule, At(One(Started), 2, handed), CreateJobBuild(B, 2), At(Mixed(), 3, handed))
  {
    FollowingOne();
    NoneOfOther();
    hide Following, Mains, FirstNumber, One;
    var s, step := At(One(Started), 2, handed), CreateJobBuild(B, 2);
    assert Creates(EXAMPLE, s, step);
    assert Created(EXAMPLE, s, step).builds == Mixed();
  }

  lemma DeleteSecond(rule: IdRule, handed: seq<BuildId>)
    ensures Moves(rule, At(Mixed(), 3, handed), DeleteBuild(2), At(One(Started), 3, handed))
  {
    assert Mixed() - {2} == One(Started);
  }

  /** NextWork looks a build up and starts it in two calls.  Where a deleted id is
      taken again, build 2 is found pending under job "b", deleted, and by the time it
      is started it is a build of "a", whose limit it breaks. */
  lemma LookupGoesStale() returns (states: seq<State>, steps: seq<Step>)
    ensures RunUnder(GreatestPlusOne, EXAMPLE, states, steps) && |steps| == 5
    ensures 2 in states[3].builds && states[3].builds[2].job == B && states[3].builds[2].status == Pending
    ensures !Limits(EXAMPLE, Next(EXAMPLE, states[5], StartPending(B, 2)).builds)
  {
    var rule, s := GreatestPlusOne, At(Two(Started, Pending), 3, [1]);
    states, steps := StaleRun();
    EndsSafely(rule, states, steps, s);
    FullForA(s.builds, 1);
    hide Next, Inv, Limits, Fits, RunUnder;
    StartKeepsLimitsExactlyWhen(EXAMPLE, s, B, 2);
  }

  lemma StaleRun() returns (states: seq<State>, steps: seq<Step>)
    ensures Reaches(GreatestPlusOne, states, steps, At(Two(Started, Pending), 3, [1]))
    ensures |steps| == 5 && |states| == 6 && states[3] == At(Mixed(), 3, [1])
  {
    var rule := GreatestPlusOne;
    hide Moves, One, Two, At, Mixed, RunUnder;
    states, steps := Begin(rule);
    CreateFirst(rule, 1, []);
    states, steps := OneMore(rule, states, steps, At(map[], 1, []), CreateJobBuild(A, 1), At(One(Pending), 2, []));
    StartFirst(rule, []);
    assert [] + [1] == [1];
    states, steps := OneMore(rule, states, steps, At(One(Pending), 2, []), StartPending(A, 1),
                             At(One(Started), 2, [1]));
    CreateOther(rule, [1]);
    states, steps := OneMore(rule, states, steps, At(One(Started), 2, [1]), CreateJobBuild(B, 2), At(Mixed(), 3, [1]));
    DeleteSecond(rule, [1]);
    states, steps := OneMore(rule, states, steps, At(Mixed(), 3, [1]), DeleteBuild(2), At(One(Started), 3, [1]));
    CreateSecond(rule, Started, 3, [1]);
    states, steps := OneMore(rule, states, steps, At(One(Started), 3, [1]), CreateJobBuild(A, 2),
                             At(Two(Started, Pending), 3, [1]));
  }
}
