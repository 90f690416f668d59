/** Sidecar services of a job (worker/service.go: runPlan, runIfStep,
    startServices, stopServices): what a plan starts, it hands over to be stopped,
    on every way out of the plan. */
module Services {

  /** How starting a service turns out: it is up; it is not; or it is up and the
      write that would record it failed. */
  datatype Start = Up | NotUp | UpUnrecorded

  /** `stops`: its stop command is found, runs in time and succeeds. */
  datatype Service = Service(name: string, start: Start, ready: bool, stops: bool)

  datatype Answer = Selects | Skips | Invalid   // what a branch's condition evaluates to

  datatype Branch = Branch(answer: Answer, steps: seq<Step>)

  datatype Step = Serve(service: Service) | Act(fails: bool) | Choose(branches: seq<Branch>)

  // ----- what a plan does, step by step

  /** `returned`: services startServices reported; `lost`: up but not reported. */
  datatype Effect = Effect(failed: bool, returned: seq<Service>, lost: seq<Service>)

  /** startServices: stops at the first service that does not come up or whose
      status write fails.  Inside a branch status writes go to a local build and
      cannot fail. */
  function BatchEffect(batch: seq<Service>, local: bool): Effect {
    if batch == [] then Effect(false, [], [])
    else if batch[0].start == NotUp then Effect(true, [], [])
    else if batch[0].start == UpUnrecorded && !local then Effect(true, [], [batch[0]])
    else
      var t := BatchEffect(batch[1..], local);
      Effect(t.failed, [batch[0]] + t.returned, t.lost)
  }

  /** A service step: one service, which must also become ready. */
  function ServeEffect(s: Service, local: bool): Effect {
    var e := BatchEffect([s], local);
    e.(failed := e.failed || !s.ready)
  }

  function Then(h: Effect, t: Effect): Effect {
    Effect(t.failed, h.returned + t.returned, h.lost + t.lost)
  }

  function InnerEffect(step: Step): Effect {
    match step
    case Serve(s) => ServeEffect(s, true)
    case Act(f) => Effect(f, [], [])
    case Choose(_) => Effect(false, [], [])
  }

  /** A branch runs its steps until one fails; an if inside it is skipped. */
  function BranchEffect(steps: seq<Step>): Effect {
    if steps == [] then Effect(false, [], [])
    else
      var h := InnerEffect(steps[0]);
      if h.failed then h else Then(h, BranchEffect(steps[1..]))
  }

  /** The first branch that does not skip decides. */
  function ChooseEffect(branches: seq<Branch>): Effect {
    if branches == [] then Effect(false, [], [])
    else match branches[0].answer
      case Skips => ChooseEffect(branches[1..])
      case Invalid => Effect(true, [], [])
      case Selects => BranchEffect(branches[0].steps)
  }

  function StepEffect(step: Step): Effect {
    match step
    case Serve(s) => ServeEffect(s, false)
    case Act(f) => Effect(f, [], [])
    case Choose(bs) => ChooseEffect(bs)
  }

  function PlanEffect(plan: seq<Step>): Effect {
    if plan == [] then Effect(false, [], [])
    else
      var h := StepEffect(plan[0]);
      if h.failed then h else Then(h, PlanEffect(plan[1..]))
  }

  // ----- the worker

  class Worker {
    var running: multiset<Service>   // services whose process is up
    var handed: seq<Service>         // services handed to stopServices
    ghost var reported: seq<Service> // services startServices returned, in order

    constructor ()
      ensures running == multiset{} && handed == [] && reported == []
    {
      running, handed, reported := multiset{}, [], [];
    }

    method StartServices(batch: seq<Service>, local: bool) returns (started: seq<Service>)
      modifies this`running, this`reported
      ensures var e := BatchEffect(batch, local);
        started == e.returned && running == old(running) + multiset(e.returned) + multiset(e.lost)
      ensures reported == old(reported) + started
    {
      hide BatchEffect;
      started := [];
      for i := 0 to |batch|
        invariant running == old(running) + multiset(started) && reported == old(reported) + started
        invariant BatchEffect(batch, local) == After(started, BatchEffect(batch[i..], local))
      {
        var ss := batch[i];
        AfterService(batch, local, i, started);
        if ss.start == NotUp { return; }
        running := running + multiset{ss};
        if ss.start == UpUnrecorded && !local { return; }
        started := started + [ss];
        reported := reported + [ss];
      }
      NoServiceLeft(batch, local);
    }

    /** Tries every service it is handed; those that do not stop keep running. */
    method StopServices(services: seq<Service>)
      modifies this`running, this`handed
      ensures handed == old(handed) + services
      ensures running == old(running) - multiset(Stopping(services))
    {
      hide Stopping;
      NothingToStop();
      for i := 0 to |services|
        invariant handed == old(handed) + services[..i]
        invariant running == old(running) - multiset(Stopping(services[..i]))
      {
        StoppingNext(services, i);
        assert services[..i + 1] == services[..i] + [services[i]];
        handed := handed + [services[i]];
        TakenTogether(old(running), multiset(Stopping(services[..i])), services[i]);
        if services[i].stops { running := running - multiset{services[i]}; }
      }
      assert services[..|services|] == services;
    }

    method ServeStep(s: Service, local: bool) returns (failed: bool, started: seq<Service>)
      modifies this`running, this`reported
      ensures failed == ServeEffect(s, local).failed && started == ServeEffect(s, local).returned
      ensures running == old(running) + multiset(started) + multiset(ServeEffect(s, local).lost)
      ensures reported == old(reported) + started
    {
      started := StartServices([s], local);
      assert [s][1..] == [];
      failed := |started| != 1 || !s.ready;
    }

    method RunIfStep(branches: seq<Branch>) returns (failed: bool, services: seq<Service>)
      modifies this`running, this`reported
      ensures failed == ChooseEffect(branches).failed && services == ChooseEffect(branches).returned
      ensures running == old(running) + multiset(services) && ChooseEffect(branches).lost == []
      ensures reported == old(reported) + services
    {
      failed, services := false, [];
      var i := 0;
      while i < |branches| && branches[i].answer == Skips
        invariant 0 <= i <= |branches| && ChooseEffect(branches[i..]) == ChooseEffect(branches)
      {
        assert branches[i..][1..] == branches[i + 1..];
        i := i + 1;
      }
      if i == |branches| { return; }
      if branches[i].answer == Invalid { return true, []; }
      BranchLosesNothing(branches[i].steps);
      failed, services := RunBranch(branches[i].steps);
    }

    method RunBranch(steps: seq<Step>) returns (failed: bool, services: seq<Service>)
      modifies this`running, this`reported
      ensures failed == BranchEffect(steps).failed && services == BranchEffect(steps).returned
      ensures running == old(running) + multiset(services)
      ensures reported == old(reported) + services
    {
      hide BranchEffect;
      failed, services := false, [];
      for k := 0 to |steps|
        invariant !failed && running == old(running) + multiset(services) && reported == old(reported) + services
        invariant BranchEffect(steps) == After(services, BranchEffect(steps[k..]))
      {
        AfterInner(steps, k, services);
        match steps[k] {
          case Serve(s) =>
            var f, started := ServeStep(s, true);
            JoinedLists(old(running), old(reported), services, started);
            services := services + started;
            failed := f;
          case Act(f) => failed := f;
          case Choose(_) =>
        }
        if failed { return; }
      }
      NothingLeft(steps);
    }

    /** The plan up to its exit, on whichever path. */
    method RunSteps(plan: seq<Step>) returns (failed: bool, all: seq<Service>)
      modifies this`running, this`reported
      ensures failed == PlanEffect(plan).failed && all == PlanEffect(plan).returned
      ensures running == old(running) + multiset(all) + multiset(PlanEffect(plan).lost)
      ensures reported == old(reported) + all
    {
      hide PlanEffect, StepEffect;
      failed, all := false, [];
      for k := 0 to |plan|
        invariant !failed && running == old(running) + multiset(all) && reported == old(reported) + all
        invariant PlanEffect(plan) == After(all, PlanEffect(plan[k..]))
      {
        AfterStep(plan, k, all);
        var f, started := RunStep(plan[k]);
        JoinedLists(old(running), old(reported), all, started);
        all, failed := all + started, f;
        if failed { return; }
      }
      NothingPlanned(plan);
    }

    method RunStep(step: Step) returns (failed: bool, started: seq<Service>)
      modifies this`running, this`reported
      ensures failed == StepEffect(step).failed && started == StepEffect(step).returned
      ensures running == old(running) + multiset(started) + multiset(StepEffect(step).lost)
      ensures reported == old(reported) + started
    {
      started := [];
      match step {
        case Serve(s) => failed, started := ServeStep(s, false);
        case Act(f) => failed := f;
        case Choose(bs) => failed, started := RunIfStep(bs);
      }
    }

    /** The plan fails exactly when one of its steps does.  Every service the plan was
        told about is handed to stopServices, once and in order, whether the plan
        succeeded or failed; what is left running is what startServices lost and what
        would not stop. */
    method RunPlan(plan: seq<Step>) returns (failed: bool)
      modifies this
      ensures failed == PlanEffect(plan).failed
      ensures failed <==> exists k :: 0 <= k < |plan| && StepFails(plan[k])
      ensures old(reported) <= reported && handed == old(handed) + reported[|old(reported)|..]
      ensures handed == old(handed) + PlanEffect(plan).returned
      ensures forall s :: s in handed[|old(handed)|..] <==> PlanReports(plan, s)
      ensures running == old(running) + multiset(Left(plan))
    {
      PlanFailsExactlyWhen(plan);
      forall s ensures s in PlanEffect(plan).returned <==> PlanReports(plan, s) { PlanReportsExactly(plan, s); }
      hide PlanEffect, Stopping, Unstopped, StepFails, PlanReports;
      var all;
      failed, all := RunSteps(plan);
      ghost var lost := PlanEffect(plan).lost;
      StoppingOrNot(all);
      assert reported[|old(reported)|..] == all;
      StoppedAndLeft(old(running), multiset(all), multiset(lost), multiset(Stopping(all)), multiset(Unstopped(all)));
      assert multiset(Left(plan)) == multiset(lost) + multiset(Unstopped(all));
      if |all| > 0 { StopServices(all); } else { NothingToStop(); }
    }
  }

  lemma StoppedAndLeft(m: multiset<Service>, all: multiset<Service>, lost: multiset<Service>,
                       stopped: multiset<Service>, left: multiset<Service>)
    requires all == stopped + left
    ensures m + all + lost - stopped == m + (lost + left)
  {
  }

  /** The services of a list that stop when told to, and those that do not. */
  function Stopping(services: seq<Service>): seq<Service> {
    if services == [] then []
    else
      var n := |services| - 1;
      Stopping(services[..n]) + if services[n].stops then [services[n]] else []
  }

  lemma TakenTogether(m: multiset<Service>, a: multiset<Service>, x: Service)
    ensures m - a - multiset{x} == m - (a + multiset{x})
  {
  }

  lemma JoinedLists(m: multiset<Service>, log: seq<Service>, a: seq<Service>, b: seq<Service>)
    ensures m + multiset(a) + multiset(b) == m + multiset(a + b) && log + a + b == log + (a + b)
  {
  }

  lemma NothingToStop()
    ensures Stopping([]) == []
  {
  }

  lemma StoppingNext(services: seq<Service>, i: nat)
    requires i < |services|
    ensures var (before, after) := (multiset(Stopping(services[..i])), multiset(Stopping(services[..i + 1])));
      after == if services[i].stops then before + multiset{services[i]} else before
  {
    assert services[..i + 1][..i] == services[..i];
  }

  function Unstopped(services: seq<Service>): seq<Service> {
    if services == [] then []
    else
      var n := |services| - 1;
      Unstopped(services[..n]) + if services[n].stops then [] else [services[n]]
  }

  /** What a plan leaves running. */
  function Left(plan: seq<Step>): seq<Service> { PlanEffect(plan).lost + Unstopped(PlanEffect(plan).returned) }

  lemma {:induction false} StoppingOrNot(services: seq<Service>)
    ensures multiset(services) == multiset(Stopping(services)) + multiset(Unstopped(services))
    ensures Unstopped(services) != [] <==> exists s :: s in services && !s.stops
    decreases |services|
  {
    if services != [] {
      var n := |services| - 1;
      assert services == services[..n] + [services[n]];
      StoppingOrNot(services[..n]);
    }
  }

  /** What is known after some services were returned and `rest` is still to run. */
  ghost function After(returned: seq<Service>, rest: Effect): Effect {
    Effect(rest.failed, returned + rest.returned, rest.lost)
  }

  lemma ServeLosesOnlyFailing(s: Service, local: bool)
    ensures !ServeEffect(s, local).failed || local ==> ServeEffect(s, local).lost == []
    ensures ServeEffect(s, local).lost != [] <==> s.start == UpUnrecorded && !local
  {
    assert [s][1..] == [];
    assert BatchEffect([], local) == Effect(false, [], []);
  }

  lemma AfterThen(all: seq<Service>, h: Effect, t: Effect)
    requires h.lost == []
    ensures After(all, Then(h, t)) == After(all + h.returned, t)
  {
    assert all + (h.returned + t.returned) == (all + h.returned) + t.returned;
    assert h.lost + t.lost == t.lost;
  }

  lemma StepLosesOnlyFailing(step: Step)
    ensures !StepEffect(step).failed ==> StepEffect(step).lost == []
  {
    match step {
      case Serve(s) => ServeLosesOnlyFailing(s, false);
      case Act(_) =>
      case Choose(bs) => ChooseLosesNothing(bs);
    }
  }

  lemma AfterService(batch: seq<Service>, local: bool, i: nat, started: seq<Service>)
    requires i < |batch| && BatchEffect(batch, local) == After(started, BatchEffect(batch[i..], local))
    ensures BatchEffect(batch, local) ==
      if batch[i].start == NotUp then Effect(true, started, [])
      else if batch[i].start == UpUnrecorded && !local then Effect(true, started, [batch[i]])
      else After(started + [batch[i]], BatchEffect(batch[i + 1..], local))
  {
    assert batch[i..][1..] == batch[i + 1..] && batch[i..][0] == batch[i];
    var t := BatchEffect(batch[i + 1..], local);
    assert started + ([batch[i]] + t.returned) == (started + [batch[i]]) + t.returned;
    assert started + [] == started;
  }

  lemma NoServiceLeft(batch: seq<Service>, local: bool)
    ensures BatchEffect(batch[|batch|..], local) == Effect(false, [], [])
  {
  }

  /** One step of a plan, seen from its overall effect. */
  lemma AfterStep(plan: seq<Step>, k: nat, all: seq<Service>)
    requires k < |plan| && PlanEffect(plan) == After(all, PlanEffect(plan[k..]))
    ensures var h := StepEffect(plan[k]);
      PlanEffect(plan) ==
        if h.failed then Effect(true, all + h.returned, h.lost) else After(all + h.returned, PlanEffect(plan[k + 1..]))
    ensures !StepEffect(plan[k]).failed ==> StepEffect(plan[k]).lost == []
  {
    hide StepEffect, Then;
    assert plan[k..][1..] == plan[k + 1..] && plan[k..][0] == plan[k];
    StepLosesOnlyFailing(plan[k]);
    var h := StepEffect(plan[k]);
    if !h.failed { AfterThen(all, h, PlanEffect(plan[k + 1..])); }
  }

  lemma NothingPlanned(plan: seq<Step>)
    ensures PlanEffect(plan[|plan|..]) == Effect(false, [], [])
  {
  }

  /** One step of a branch, seen from the branch's overall effect. */
  lemma AfterInner(steps: seq<Step>, k: nat, services: seq<Service>)
    requires k < |steps| && BranchEffect(steps) == After(services, BranchEffect(steps[k..]))
    ensures var h := InnerEffect(steps[k]);
      BranchEffect(steps) ==
        if h.failed then Effect(true, services + h.returned, [])
          else After(services + h.returned, BranchEffect(steps[k + 1..]))
    ensures InnerEffect(steps[k]).lost == []
  {
    hide ServeEffect, Then;
    assert steps[k..][1..] == steps[k + 1..] && steps[k..][0] == steps[k];
    if steps[k].Serve? { ServeLosesOnlyFailing(steps[k].service, true); }
    var h := InnerEffect(steps[k]);
    if !h.failed { AfterThen(services, h, BranchEffect(steps[k + 1..])); }
  }

  lemma NothingLeft(steps: seq<Step>)
    ensures BranchEffect(steps[|steps|..]) == Effect(false, [], [])
  {
  }

  lemma {:induction false} BranchLosesNothing(steps: seq<Step>)
    ensures BranchEffect(steps).lost == []
    decreases |steps|
  {
    if steps != [] {
      BranchLosesNothing(steps[1..]);
      if steps[0].Serve? { ServeLosesOnlyFailing(steps[0].service, true); }
    }
  }

  lemma {:induction false} ChooseLosesNothing(branches: seq<Branch>)
    ensures ChooseEffect(branches).lost == []
    decreases |branches|
  {
    if branches != [] {
      ChooseLosesNothing(branches[1..]);
      BranchLosesNothing(branches[0].steps);
    }
  }

  // ----- when a plan fails and what it reports, said about its steps

  /** Inside a branch the status write of a service cannot fail, and an if is skipped. */
  ghost predicate InnerFails(step: Step) {
    match step
    case Serve(s) => s.start == NotUp || !s.ready
    case Act(f) => f
    case Choose(_) => false
  }

  /** Branch i is the first that does not skip. */
  ghost predicate Decides(branches: seq<Branch>, i: int) {
    0 <= i < |branches| && branches[i].answer != Skips && forall k :: 0 <= k < i ==> branches[k].answer == Skips
  }

  ghost predicate SomeInnerFails(steps: seq<Step>) { exists k :: 0 <= k < |steps| && InnerFails(steps[k]) }

  ghost predicate StepFails(step: Step) {
    match step
    case Serve(s) => s.start != Up || !s.ready
    case Act(f) => f
    case Choose(bs) => exists i :: Decides(bs, i) && (bs[i].answer == Invalid || SomeInnerFails(bs[i].steps))
  }

  /** A branch reports a service when it gets to it and its process comes up. */
  ghost predicate InnerReports(steps: seq<Step>, s: Service) {
    s.start != NotUp && exists k :: 0 <= k < |steps| && steps[k] == Serve(s) && !SomeInnerFails(steps[..k])
  }

  ghost predicate Reports(step: Step, s: Service) {
    match step
    case Serve(x) => x == s && s.start == Up
    case Act(_) => false
    case Choose(bs) => exists i :: Decides(bs, i) && bs[i].answer == Selects && InnerReports(bs[i].steps, s)
  }

  lemma ServeIs(x: Service, local: bool)
    ensures var e := ServeEffect(x, local);
      && (e.failed <==> x.start == NotUp || !x.ready || (x.start == UpUnrecorded && !local))
      && e.returned == if x.start == Up || (x.start == UpUnrecorded && local) then [x] else []
  {
    assert [x][1..] == [];
    assert BatchEffect([], local) == Effect(false, [], []);
  }

  lemma {:induction false} BranchIs(steps: seq<Step>, s: Service)
    ensures BranchEffect(steps).failed <==> SomeInnerFails(steps)
    ensures s in BranchEffect(steps).returned <==> InnerReports(steps, s)
    decreases |steps|
  {
    if steps != [] {
      var rest := steps[1..];
      BranchIs(rest, s);
      if steps[0].Serve? { ServeIs(steps[0].service, true); }
      SomeInnerStep(steps);
      InnerReportsStep(steps, s);
      hide ServeEffect, SomeInnerFails, InnerReports;
    } else {
      assert BranchEffect(steps) == Effect(false, [], []);
    }
  }

  lemma SomeInnerStep(steps: seq<Step>)
    requires steps != []
    ensures SomeInnerFails(steps) <==> InnerFails(steps[0]) || SomeInnerFails(steps[1..])
  {
    var rest := steps[1..];
    if k :| 0 <= k < |steps| && InnerFails(steps[k]) { assert k > 0 ==> rest[k - 1] == steps[k]; }
    if k :| 0 <= k < |rest| && InnerFails(rest[k]) { assert steps[k + 1] == rest[k]; }
  }

  lemma InnerReportsStep(steps: seq<Step>, s: Service)
    requires steps != []
    ensures InnerReports(steps, s) <==>
      (steps[0] == Serve(s) && s.start != NotUp) || (!InnerFails(steps[0]) && InnerReports(steps[1..], s))
  {
    hide InnerFails;
    var rest := steps[1..];
    if steps[0] == Serve(s) { assert steps[..0] == []; }
    if k :| 0 <= k < |steps| && steps[k] == Serve(s) && !SomeInnerFails(steps[..k]) {
      if k > 0 {
        SomeInnerStep(steps[..k]);
        assert steps[..k][1..] == rest[..k - 1] && rest[k - 1] == steps[k];
      }
    }
    if k :| 0 <= k < |rest| && rest[k] == Serve(s) && !SomeInnerFails(rest[..k]) {
      if !InnerFails(steps[0]) {
        assert steps[..k + 1][1..] == rest[..k] && steps[k + 1] == rest[k];
        SomeInnerStep(steps[..k + 1]);
      }
    }
  }

  lemma {:induction false} ChooseIs(bs: seq<Branch>, s: Service)
    ensures ChooseEffect(bs).failed <==> StepFails(Choose(bs))
    ensures s in ChooseEffect(bs).returned <==> Reports(Choose(bs), s)
    decreases |bs|
  {
    if bs != [] {
      var rest := bs[1..];
      forall i: int ensures bs[0].answer == Skips ==> (Decides(bs, i) <==> i > 0 && Decides(rest, i - 1)) {
        if Decides(bs, i) && i > 0 { assert forall k :: 0 <= k < i - 1 ==> rest[k] == bs[k + 1]; }
      }
      hide SomeInnerFails, InnerReports, BranchEffect;
      if bs[0].answer == Skips {
        ChooseIs(rest, s);
        if i :| Decides(rest, i) { assert Decides(bs, i + 1) && bs[i + 1] == rest[i]; }
        if i :| Decides(bs, i) { assert Decides(rest, i - 1) && bs[i] == rest[i - 1]; }
      } else {
        BranchIs(bs[0].steps, s);
        assert Decides(bs, 0);
        assert forall i :: Decides(bs, i) ==> i == 0;
      }
    }
  }

  /** One step: when it fails and which services it reports. */
  lemma StepIs(step: Step, s: Service)
    ensures StepEffect(step).failed <==> StepFails(step)
    ensures s in StepEffect(step).returned <==> Reports(step, s)
  {
    match step {
      case Serve(x) => ServeIs(x, false);
      case Act(_) =>
      case Choose(bs) => ChooseIs(bs, s);
    }
  }

  /** A plan fails exactly when one of its steps fails: the first such step is always
      arrived at. */
  lemma {:induction false} PlanFailsExactlyWhen(plan: seq<Step>)
    ensures PlanEffect(plan).failed <==> exists k :: 0 <= k < |plan| && StepFails(plan[k])
    decreases |plan|
  {
    if plan != [] {
      var rest, any := plan[1..], Service("", Up, true, true);
      PlanFailsExactlyWhen(rest);
      StepIs(plan[0], any);
      hide StepFails, StepEffect;
      if k :| 0 <= k < |plan| && StepFails(plan[k]) { assert k > 0 ==> rest[k - 1] == plan[k]; }
      if k :| 0 <= k < |rest| && StepFails(rest[k]) { assert plan[k + 1] == rest[k]; }
    }
  }

  // ----- leaks

  /** The plan gets as far as step i. */
  ghost predicate Arrives(plan: seq<Step>, i: nat)
    requires i <= |plan|
  {
    forall k :: 0 <= k < i ==> !StepFails(plan[k])
  }

  /** A step that can leave a service running: it starts one whose status write then
      fails, or it reports one that will not stop. */
  ghost predicate Leaky(step: Step) {
    || (step.Serve? && step.service.start == UpUnrecorded)
    || exists s :: Reports(step, s) && !s.stops
  }

  lemma LostByStep(step: Step)
    ensures StepEffect(step).lost != [] <==> step.Serve? && step.service.start == UpUnrecorded
    ensures !StepEffect(step).failed ==> StepEffect(step).lost == []
  {
    match step {
      case Serve(s) => ServeLosesOnlyFailing(s, false);
      case Act(_) =>
      case Choose(bs) => ChooseLosesNothing(bs);
    }
  }

  lemma ArrivesLater(plan: seq<Step>, i: nat)
    requires plan != [] && i < |plan[1..]|
    ensures Arrives(plan, i + 1) <==> !StepFails(plan[0]) && Arrives(plan[1..], i)
  {
    hide StepFails;
    assert forall k :: 0 <= k < i ==> plan[1..][k] == plan[k + 1];
    if !StepFails(plan[0]) && Arrives(plan[1..], i) {
      forall k | 0 <= k < i + 1 ensures !StepFails(plan[k]) {
        if k > 0 { assert !StepFails(plan[1..][k - 1]); }
      }
    }
    if Arrives(plan, i + 1) {
      forall k | 0 <= k < i ensures !StepFails(plan[1..][k]) { assert !StepFails(plan[k + 1]); }
    }
  }

  /** A plan reports a service exactly when it arrives at a step that does. */
  ghost predicate PlanReports(plan: seq<Step>, s: Service) {
    exists k :: 0 <= k < |plan| && Arrives(plan, k) && Reports(plan[k], s)
  }

  lemma {:induction false} PlanReportsExactly(plan: seq<Step>, s: Service)
    ensures s in PlanEffect(plan).returned <==> PlanReports(plan, s)
    decreases |plan|
  {
    if plan != [] {
      var rest := plan[1..];
      PlanReportsExactly(rest, s);
      StepIs(plan[0], s);
      hide StepFails, Reports, StepEffect;
      if Reports(plan[0], s) { assert Arrives(plan, 0); }
      if k :| 0 <= k < |plan| && Arrives(plan, k) && Reports(plan[k], s) {
        if k > 0 {
          ArrivesLater(plan, k - 1);
          assert rest[k - 1] == plan[k];
        }
      }
      if k :| 0 <= k < |rest| && Arrives(rest, k) && Reports(rest[k], s) {
        if !StepFails(plan[0]) {
          ArrivesLater(plan, k);
          assert plan[k + 1] == rest[k];
        }
      }
    }
  }

  /** The plan arrives at a step with the property. */
  ghost predicate ArrivesAtLeaky(plan: seq<Step>) {
    exists i :: 0 <= i < |plan| && Arrives(plan, i) && Leaky(plan[i])
  }

  lemma ArrivesFirstOrLater(plan: seq<Step>)
    requires plan != []
    ensures ArrivesAtLeaky(plan) <==> Leaky(plan[0]) || (!StepFails(plan[0]) && ArrivesAtLeaky(plan[1..]))
  {
    hide Leaky, StepFails;
    var rest := plan[1..];
    if Leaky(plan[0]) { assert Arrives(plan, 0); }
    if !StepFails(plan[0]) && ArrivesAtLeaky(rest) {
      var i :| 0 <= i < |rest| && Arrives(rest, i) && Leaky(rest[i]);
      ArrivesLater(plan, i);
      assert plan[i + 1] == rest[i];
    }
    if i :| 0 <= i < |plan| && Arrives(plan, i) && Leaky(plan[i]) {
      if i > 0 {
        ArrivesLater(plan, i - 1);
        assert rest[i - 1] == plan[i];
      }
    }
  }

  lemma LeftByParts(plan: seq<Step>)
    ensures Left(plan) != [] <==>
      PlanEffect(plan).lost != [] || exists s :: s in PlanEffect(plan).returned && !s.stops
  {
    StoppingOrNot(PlanEffect(plan).returned);
  }

  lemma {:induction false} SomethingLeft(plan: seq<Step>)
    ensures PlanEffect(plan).lost != [] || (exists s :: s in PlanEffect(plan).returned && !s.stops) <==>
      ArrivesAtLeaky(plan)
    decreases |plan|
  {
    if plan != [] {
      var h, t := StepEffect(plan[0]), PlanEffect(plan[1..]);
      SomethingLeft(plan[1..]);
      LostByStep(plan[0]);
      ArrivesFirstOrLater(plan);
      forall s { StepIs(plan[0], s); }
      hide StepEffect, ArrivesAtLeaky, StepFails, Reports;
      assert forall s :: s in h.returned + t.returned <==> s in h.returned || s in t.returned;
      assert PlanEffect(plan) == if h.failed then h else Then(h, t);
    }
  }

  /** A plan leaves a service running exactly when it arrives at a step that reports a
      service which will not stop, or at a top-level service step whose process
      starts and whose status write then fails. */
  lemma LeaksExactlyWhen(plan: seq<Step>)
    ensures Left(plan) != [] <==> ArrivesAtLeaky(plan)
  {
    LeftByParts(plan);
    SomethingLeft(plan);
  }

  /** Both ways of leaving a service running: the first is never handed over, the
      second is handed over and does not stop. */
  lemma TwoLeaks(name: string)
    ensures Left([Serve(Service(name, UpUnrecorded, true, true))]) == [Service(name, UpUnrecorded, true, true)]
    ensures PlanEffect([Serve(Service(name, UpUnrecorded, true, true))]).returned == []
    ensures Left([Serve(Service(name, Up, true, false))]) == [Service(name, Up, true, false)]
    ensures PlanEffect([Serve(Service(name, Up, true, false))]).returned == [Service(name, Up, true, false)]
  {
    OnlyService(Service(name, UpUnrecorded, true, true));
    OnlyService(Service(name, Up, true, false));
  }

  lemma OnlyService(s: Service)
    requires s.start != NotUp && s.ready
    ensures var e := PlanEffect([Serve(s)]);
      if s.start == Up then e.returned == [s] && e.lost == [] else e.returned == [] && e.lost == [s]
    ensures Left([Serve(s)]) == if s.start == Up && s.stops then [] else [s]
  {
    assert [s][1..] == [] && [Serve(s)][1..] == [];
    assert BatchEffect([], false) == Effect(false, [], []) && PlanEffect([]) == Effect(false, [], []);
    assert [s][..0] == [] && Unstopped([]) == [];
    assert Unstopped([s]) == Unstopped([s][..0]) + if s.stops then [] else [s];
  }
}
